# Verification of the durable run protocol and of content identity

This project models the backend's Discovery Run protocol and the content-identity code under it, and
proves what they keep over whole runs. `dafny verify dfyconfig.toml` checks everything. Nothing here
was executed: every statement below is a theorem about the model.

## What is modelled

**The run protocol.** `RunRecords` gives one run as the database sees it (its row, its append-only
observations, its audit log) and the effect of each committed transaction: claim, settle, roll-up,
reap, thread-fetch claim and settle, refused fetches. `RunDatabase.Database` is the code of those
transactions over shared tables, each method proved to have exactly that effect and to touch no other
run. `RunProtocol` interleaves any number of workers, redelivered and stray jobs, crashes and the
reaper as a step system. `RunSafety`, `Processing`, `Announcement` and `Strandings` prove what every
interleaving keeps, when processing completes, who announces it, and which Candidates are lost when a
worker dies. `RunCompletion`, `FetchJobs` and `RunLiveness` prove what can always be done: which claims
spawn, that a run's own fetch jobs are never refused, and that a run left alone can complete. `RunMetrics`
shows the roll-up needs no row order. `Attempts` is one attempt from CLI result to row, and
`AttemptEvidence` what the evidence stores answer it; `Transitions` and `EventStream` are the two readers
of a run.

**Keyed writes.** `KeyedWrites` has concurrent transactions over a unique index with a blocking flush,
and proves they refine one atomic map from key to first result. `StartRun`, with `JobQueue`, interleaves
that system with every caller's enqueue loop, a queue that can refuse after the commit, and workers
that take jobs away. `FrozenPlan` loads the plan.

**Evidence.** `Manifests`, `ManifestTexts`, `ManifestIdentity` and `ManifestReading` cover validation, the canonical
manifest, its digest identity and reading it back. `EvidenceStore` is the abstract store and the
in-memory adapter; `LocalStore` is the filesystem adapter; `StoreCrashes` interleaves any number of
its finalizers, each of which may stop anywhere.

**Normalization.** `Json` and `JsonRoundTrip` print JSON and read it back, and `JsonGrammar` says which texts
are read (RFC 8259, sections 2 to 7); `CanonicalJson` is the hashed text in both runtimes, and
`CanonicalMeaning` says in what order and form it has keys and numbers. `Threads`, `ThreadNormalization`, `ThreadPayloads`,
`ThreadValidation` and `ThreadRebuild` are the two thread normalizers; `ContentIdentity` and `ContentMeaning` are the
content hash;
`Conversations` and `ConversationReplay` are the get-or-create replay; `CurrentVersions` is the batch
selector. `RedditUrls`, with `RedditPaths` and `RedditTexts`, is URL canonicalization and the candidate list.

**Paging.** `Cursors` (UTF-8, section 3 of RFC 3629, in base64url, section 5 of RFC 4648) and `PageWalks`.

## What the code does less than its comments say

Each of these is a theorem with its exact condition, or a concrete run.

- A claim for hostile ids does not always fall back to a refused row: on a live run it aborts, recording
  nothing, for a query id with U+0000 and, unless the pair is recorded already, for query ids above 150
  characters, correlation ids above 128, and an unplanned id that meets a correlation id with U+0000 or
  a provider variant above 200 characters (`RunSafety.ClaimAbortsExactly`). The violation row spells the
  id inside a 200-character column. A thread-fetch refusal aborts on U+0000 too (`RunRecords.ClaimFetch`).
- A row that a column refuses aborts the settle that would record it, and a run whose last missing query
  ends so stays open. Elapsed time and candidate count are 32-bit columns that documents do not bound,
  text and JSON columns refuse U+0000, and a failure without a document copies the plan's unbounded
  provider variant (`RunSafety.ClosesAtLastMissing`, `Attempts.RowsThatFit`,
  `RunSafety.LargeCountKeepsRunOpen`).
- A worker that dies inside fan-out or a fetch, or whose queue connection cannot be opened, loses the
  Candidates that it alone held, and so does a queue that still knows the id of a job nobody has, until a
  later search names them again or a job for them is delivered from outside. A row under a Candidate's
  fetch id that names another thread, or a discovery job with an id of that form, loses it even to those
  (`Processing.QuietRunsAreComplete` is an if-and-only-if; `Strandings` has such a run).
- A Candidate id above 512 characters is cut when stored and never matches, so such a run never
  completes (the same theorem).
- A reap, and refused fetches recorded by a worker that did not close the run, can complete
  processing unannounced (`Announcement.CompletingCommitAnnounces`); the heartbeat ends the stream
  anyway (`EventStream.StreamEvents`).
- Losing the rename race raises an operating system error where the system reports a non-empty
  directory (`StoreCrashes.SecondRename`), and names where one is a path prefix of another are
  accepted in memory and refused on disk (`LocalStore.LocalEvidenceStore.FinalizeBundle`).
- A missing bundle is BundleNotFound in memory and an integrity error on disk (`LocalStore.OpenAgrees`).
  Neither adapter ever raises BundleNotFound, which no handler around an attempt catches, while it
  finalizes (`AttemptEvidence.SoundStoreAnswers`, `StoreCrashes.NeverNotFound`).
- An empty `more` node is kept by Node and dropped by Python; one listing is enough for Node and an
  error for Python; a zero timestamp is kept by Python alone; a timestamp outside the dates is null in
  Python and an exception in Node; a reported depth beyond the range of doubles raises in Python
  (`ThreadNormalization`).
- Numeric object keys, and keys with characters above U+FFFF, can be ordered differently by the two
  runtimes; whole numbers beyond 2^53 are exact in Python and rounded in Node; and a number below one
  with four to eight zeros after its point is written differently (`CanonicalJson.RuntimesAgree`,
  `CanonicalJson.WhenNumbersAgree`, `CanonicalJson.NumericKeysDisagree`, `CanonicalJson.LargeWholesDisagree`).
- A canonical URL whose slug is a double dot is no thread URL when parsed again
  (`RedditUrls.CanonicalizingTwice`).
- A candidate limit of zero still lists one candidate (`RedditUrls.NormalizeDiscoveryRows`).

## Assumptions

SHA-256 and uuid5 are constants without a definition. Every result that needs them injective says so in a
`requires`. Evidence digests are typed as 64 hex characters, so they cannot be injective: results there ask
only that no two of the contents that occur collide (`NoCollision`, over the bytes and manifest texts of one
store and one request), publication and crash atomicity need nothing, and
`StoreCrashes.SomeRequestIsAcceptable`, `StoreCrashes.FinalizerGetsThrough` and `StoreCrashes.RaceIsReachable`
show that the hypotheses can be met. Elsewhere a digest is any string and injectivity is asked of it
directly (`CollisionFree`, `ThreadDigestIsInjective`, `UuidsAreInjective`). URL validation, timestamp
rendering, the digits Node writes for doubles beyond 2^53, and the run inside a recorded reply are constants
too. A CLI attempt is an arbitrary `CliResult`, an artifact's source an arbitrary optional byte string, and
each step of a schedule is chosen by the environment.

## Model

| member | source | states |
|---|---|---|
| `RunSafety.CountIsCoverage` | backend/app/discovery/runner.py:749-772 | With distinct plan ids and rows unique per query, the planned rows never outnumber the plan, and reach its size exactly when every planned query has an observation. |
| `RunSafety.TransactionIsSafe` | backend/app/discovery/runner.py:734-1073 | Every claim, settle, reap, fetch or refusal transaction keeps a run safe: audit log replaying to the stored status, one closing event exactly when terminal, timestamps set exactly when the log says so, closed metrics equal to recomputation, and an open run missing some planned query. |
| `RunSafety.EveryHistoryIsSafe` | backend/app/discovery/runner.py:811-1073 | So does every history of such transactions, and along it status, rows and log only move forward and a terminal run gains nothing but fetch rows. |
| `RunSafety.ClosesAtLastMissing` | backend/app/discovery/runner.py:749-796 | A transaction closes an open run exactly when it settles, with a row that fits its columns, the last planned query without an observation, or reaps a stale run. |
| `RunSafety.LargeCountKeepsRunOpen` | backend/app/discovery/runner.py:263-295 | A document reporting 2147483648 candidates for the last missing query: its settle records nothing and the run stays open. |
| `Attempts.RowsThatFit` | backend/app/discovery/runner.py:263-388 | The row of an attempt fits its columns exactly when the correlation id has no U+0000 and the parts of the document that this outcome keeps fit, or without one the plan's provider variant does. |
| `RunSafety.ClaimAbortsExactly` | backend/app/discovery/runner.py:853-897 | A claim aborts with nothing recorded exactly when, on a live run, the query id holds U+0000, the run would start under an unfit correlation id, or an unrecorded pair has an over-length id or is unplanned and meets an unfit correlation id or provider variant. |
| `RunSafety.PlannedQueriesSpawn` | backend/app/discovery/runner.py:811-920 | A claim lets an attempt be spawned exactly when the run is queued or running, the plan lists the query, no row has its id, and the correlation id has at most 128 characters, without U+0000 if the claim starts the run. |
| `RunSafety.ClaimLeaves` | backend/app/discovery/runner.py:826-913 | What a claim answers and leaves in every other case: the first to pass its checks starts the run with one audit event, a recorded or refused query is answered with the running status, and only a refused one adds a row, failed, without evidence or Candidates, which never closes the run. |
| `RunSafety.QueryIdsExactly` | backend/app/discovery/service.py:35 | Query ids are one to sixty-four ASCII digits, letters, underscores and hyphens. |
| `RunSafety.SettleDecides` | backend/app/discovery/runner.py:1019-1073 | A settle answers late exactly on an ended run, as a replay exactly where the row is there, aborts exactly where a column refuses, and otherwise appends that row and closes the run exactly when it was the last missing. |
| `RunSafety.ReapDecides` | backend/app/discovery/worker.py:37-98 | A reap closes exactly a run that is running since before the cutoff, as failed, noting the reap in its metrics and in one audit event. |
| `RunCompletion.AttemptRecords` | backend/app/discovery/runner.py:1266-1322 | In every reachable state of an open run, a planned query without a row can be delivered to any free worker, attempted and recorded with any row that fits; the run closes exactly if it was the last, and the worker goes on to enqueue what the row names. |
| `RunCompletion.OpenRunCanClose` | backend/app/discovery/runner.py:734-808 | From every reachable state of an open run, whatever died or was refused before, some continuation records any fitting rows for all missing queries and closes the run by its roll-up. |
| `RunCompletion.WorkersMoveOn` | backend/app/discovery/runner.py:1266-1322 | A worker goes on exactly when its transaction let it: to its attempt, to its fan-out, to publishing; one that was answered otherwise does nothing more. |
| `RunCompletion.StaleRunCanBeReaped` | backend/app/discovery/worker.py:37-98 | Whatever its workers are doing, a run that is running since before the cutoff can be reaped, which fails it and touches nothing else. |
| `RunLiveness.EveryRunCanComplete` | backend/app/discovery/runner.py:1188-1322 | Whatever fitting rows its searches and fetches end with, some schedule of a fresh run completes its processing: it closes with each query's row, every Candidate a row names is fetched, and none is refused. |
| `RunSafety.ClosedMetricsMeaning` | backend/app/discovery/runner.py:749-796 | In every later state of a rolled-up run the status counts sum to the plan size, usage is null exactly when no planned row measured a request, and the final status can be read off the counts. |
| `RunMetrics.RollUpIgnoresOrder` | backend/app/discovery/runner.py:751-793 | The metrics and the closing status are the same for every order in which the unordered query returns the rows. |
| `RunMetrics.TotalsAreSums` | backend/app/discovery/runner.py:722-793 | The elapsed total and the request total are the sums over the rows, counters that are absent or negative measuring nothing. |
| `RunDatabase.Summarize` | backend/app/discovery/runner.py:774-793 | The counting loop computes the status multiset, the elapsed total, the nullable request total and the final status of the rows. |
| `RunDatabase.Database.RollUpRun` | backend/app/discovery/runner.py:734-808 | Closes the run with metrics, status and one audit event exactly when the count test passes on a live run, and touches no other run. |
| `RunDatabase.Database.ClaimRun` | backend/app/discovery/runner.py:811-920 | The claim transaction has exactly the effect and marker of the specification, aborts included, and touches no other run; `RunSafety.PlannedQueriesSpawn`, `RunSafety.ClaimLeaves` and `RunSafety.ClaimAbortsExactly` say what those are. |
| `RunDatabase.Database.SettleRun` | backend/app/discovery/runner.py:964-1073 | The settle transaction, bundle row included, has exactly the specified effect for every well-formed outcome and job: late, replayed, recorded, or aborted by a conflicting bundle row or a column, and then nothing of its own stays. |
| `RunDatabase.Database.EnsureBundleRow` | backend/app/discovery/runner.py:964-1016 | With another transaction's insert between look-up and savepoint, the bundle's row is reused or inserted once, and refused exactly when the row there differs. |
| `RunDatabase.BundleTableMeaning` | backend/app/discovery/runner.py:964-1016 | What a settle leaves in the bundle table: a row that is there stays, a rival's row goes first, and its own stays only with its observation. |
| `AttemptEvidence.BundleRowsAgree` | backend/app/evidence/store.py:425-443 | Valid bundles of one identity are equal unless their manifests collide, so store-made bundle rows never conflict. |
| `RunDatabase.Database.PersistUnenqueuedFetches` | backend/app/discovery/runner.py:1096-1157 | The loop appends one transport-error fetch row for each failed Candidate that has none, and counts them. |
| `RunDatabase.Database.ReapStaleRuns` | backend/app/discovery/worker.py:37-98 | One transaction reaps every run that is running since before the cutoff, leaves every other run as it was, and returns how many there were. |
| `RunDatabase.Database.ClaimThread` | backend/app/conversations/runner.py:100-172 | The thread claim has exactly the effect and marker of the specification, which `FetchJobs.ClaimFetchDecides` states over ids, lengths and rows, and touches no other run. |
| `FetchJobs.ClaimFetchDecides` | backend/app/conversations/runner.py:118-172 | A thread claim spawns exactly for an unrecorded Candidate under the run's own correlation id, both within their widths, that some discovery row lists with exactly that id and URL; otherwise it answers with the row there is, aborts on U+0000, or records one refusal that names what it can. |
| `FetchJobs.StrayFetchMoves` | backend/app/conversations/runner.py:320-395 | A stray fetch goes on to fetch, or to publish, exactly as its claim is answered; one whose claim aborts ends there. |
| `FetchJobs.DeliveredJobsAreFetched` | backend/app/conversations/runner.py:100-172 | From a fresh run, over every schedule: a delivered job finds its row recorded, or spawns if it was queued under the run's own correlation id with an id that fits, and is refused only otherwise. |
| `FetchJobs.OwnJobsAreNeverRefused` | backend/app/discovery/queue.py:91-135 | So where the discovery jobs delivered are the run's own, no fetch job with a fitting id is ever refused, over every schedule with stray fetches, reaps and deaths. |
| `FetchJobs.PersistDecides` | backend/app/discovery/runner.py:1096-1157 | Recording refused fetches appends one failed transport-error row for the first of each fetch id that has none, in order, and changes nothing else. |
| `RunDatabase.Database.SettleThread` | backend/app/conversations/runner.py:283-313 | The thread settle appends at most one row per Candidate, with its bundle's row, in any run status, and nothing where a column or a conflicting bundle row refuses. |
| `RunProtocol.ActionCommitsTransaction` | backend/app/discovery/runner.py:1266-1322 | Every action of every worker changes the run only by one of the committed transactions, legally. |
| `RunProtocol.EveryScheduleIsSafe` | backend/app/discovery/runner.py:811-1073 | Over every interleaving of any number of workers, crashes, redeliveries, stray jobs and reaps the run stays safe and only moves forward. |
| `RunProtocol.FreshRunIsSafe` | backend/app/discovery/service.py:167-215 | In particular every run started from a loadable plan. |
| `Processing.UniqueFetchesCoverNames` | backend/app/discovery/queue.py:91-118 | Fan-out attempts exactly the Candidates that the report will expect, each id once. |
| `FetchJobs.UniqueFetchesMeaning` | backend/app/discovery/queue.py:101-107 | In order, they are the first element of each id with the URL it has there. |
| `Processing.CompletionIsPermanent` | backend/app/conversations/service.py:414-508 | After a run is terminal its expected Candidates are frozen and completed processing stays complete. |
| `Processing.CompletionSurvivesEverySchedule` | backend/app/conversations/service.py:491-508 | The same over every schedule of the protocol, disturbed or not. |
| `Processing.ActionOwesExactly` | backend/app/discovery/runner.py:1188-1263 | Any action changes who has, or is still owed, a fetch row exactly by the guards that heal and lose a Candidate, for every Candidate whose id fits. |
| `Processing.EveryScheduleIsTracked` | backend/app/discovery/runner.py:1188-1263 | Over every schedule, with deaths, unfit rows, misnaming documents, hostile jobs, refusals, swallowed enqueues, reaps and redeliveries, an expected Candidate whose id fits has its row or is owed it exactly when it is not lost. |
| `Processing.QuietRunsAreComplete` | backend/app/discovery/runner.py:1096-1157 | From a fresh run, over every schedule, once fan-outs have run and no job is pending: an expected Candidate is fetched exactly when its id fits its column and it is not lost, and processing of a terminal run is complete exactly when all are. |
| `Announcement.CompletingCommitAnnounces` | backend/app/discovery/runner.py:1160-1263 | The commit that completes processing leaves its own worker bound to announce it exactly unless it is a reap or refused fetches of a worker that did not close the run. |
| `Announcement.AnnouncesExactly` | backend/app/discovery/runner.py:1160-1185 | A worker announces exactly when it publishes at the end of a fetch, or of a fan-out that closed the run, and finds processing complete. |
| `Announcement.CompletionIsAnnounced` | backend/app/conversations/runner.py:379-395 | That worker, over any later schedule it survives to the end, has announced. |
| `Announcement.AnnouncementsAreTrue` | backend/app/discovery/runner.py:1160-1185 | Nobody ever announces before processing is complete. |
| `Strandings.LostUntilHealed` | backend/app/discovery/runner.py:1202-1221 | Over every schedule that does not heal it, a lost Candidate is fetched by nobody, owed by nobody, and keeps processing incomplete. |
| `Strandings.HealingRestores` | backend/app/discovery/runner.py:1202-1221 | Whatever heals it, a later search or outside job with nothing recorded under its fetch id, or a row elsewhere that names it, leaves it fetched or owed again. |
| `Strandings.RedeliveryHeals` | backend/app/conversations/runner.py:100-172 | An outside job for a Candidate heals it exactly unless a row stands under its fetch id, or it is refused for a text that no refusal row can hold. |
| `Strandings.MisnamedDocumentLoses` | backend/app/conversations/runner.py:213-280 | A fetch whose storable row is the first under its id loses its Candidate exactly when the outcome's document names another thread, or none and its evidence was retained. |
| `Strandings.FailedQueueConnectionStrands` | backend/app/discovery/queue.py:110-130 | A four-step run of one query and one Candidate that ends terminal and quiet with its Candidate lost when the queue connection fails. |
| `Attempts.EachClassHasOneCause` | backend/app/discovery/runner.py:442-547 | The failure class of a CLI result as a decision table: each of the nine classes has exactly one cause, and there is none exactly for a valid document of the expected capability. |
| `Attempts.AttemptIsWellFormed` | backend/app/discovery/runner.py:640-677 | For any store reply, classify then finalize raises only if the store reports a missing bundle; otherwise it gives an outcome both row builders accept, backed by what the attempt produced. |
| `AttemptEvidence.SoundStoreAnswers` | backend/app/evidence/store.py:520-582 | A sound in-memory store accepts exactly an acceptable artifact, with a bundle that verifies, calls any other invalid, and never misses a bundle. |
| `AttemptEvidence.AttemptNeverRaises` | backend/app/discovery/runner.py:640-677 | So with that store no attempt raises. |
| `AttemptEvidence.LocalAttemptIsBacked` | backend/app/discovery/runner.py:640-677 | With the filesystem store, over every history of concurrent and crashing finalizers, no attempt raises, and it names a bundle exactly when its finalizer succeeded, a bundle that verifies after any later history. |
| `Attempts.OutcomesBecomeRows` | backend/app/discovery/runner.py:391-439 | Neither row builder raises on such an outcome; both rows satisfy the evidence-reference and vocabulary CHECKs, and a usable status never comes without its bundle. |
| `Attempts.ThreadRowIdentity` | backend/app/conversations/runner.py:213-280 | Exactly when a thread row names the Candidate it was fetched for. |
| `Attempts.AttemptEnds` | backend/app/discovery/runner.py:442-677 | From CLI result and store reply to outcome: without a trusted document a classified failure; with one, a bundle exactly where the store retained its artifact, a native failure exactly where none was due, and otherwise unreadable evidence that keeps the document. |
| `Attempts.RowsSay` | backend/app/discovery/runner.py:263-439 | The two rows of an outcome field by field: status, class, evidence state, bundle, measures, Candidates and the thread it is filed under. |
| `Attempts.BuildersRaiseExactly` | backend/app/discovery/runner.py:391-439 | On any outcome at all, exactly when each builder raises, and the class it falls back to. |
| `Transitions.ListRunTransitions` | backend/app/conversations/service.py:414-508 | The counting loops report each distinct expected Candidate once, in first-seen order, with its latest fetch status, and processing complete exactly when the run is terminal and every expected Candidate is fetched. |
| `Transitions.ExpectedInOrder` | backend/app/conversations/service.py:424-444 | The entries are the first fetchable elements of their ids over the discovery rows, row by row, with the URLs they have there. |
| `Transitions.LatestFetchDecides` | backend/app/conversations/service.py:446-459 | An entry's status is that of the last fetch row that names it. |
| `Transitions.EntryMeaning` | backend/app/conversations/service.py:475-496 | An entry has a status exactly when some fetch row names it, the Conversation of its id, and the current version of that. |
| `Transitions.CountersCount` | backend/app/conversations/service.py:475-502 | The counters are the numbers of entries with a status and with a version. |
| `EventStream.StreamEvents` | backend/app/discovery/router.py:199-286 | The stream stops at exactly the first turn that ends it, the first heartbeat after completion included, and until then sends what each turn asks for, in order: discovery.completed exactly when the run was over at connection, a heartbeat saw so or its own message came, made up at most once and never after that message; a keep-alive for any other heartbeat that does not end it; and the run's own events. |
| `EventStream.FramesMeaning` | backend/app/discovery/router.py:221-286 | The same of the specified frames over any turns: completion is sent exactly when there is reason to, and told once. |
| `KeyedWrites.ActionRefinesAtomicWrite` | backend/app/idempotency/service.py:25-102 | Every step of every concurrent transaction either leaves the committed store alone or is one atomic first-result write, and each call that ends without failure ends with that write's outcome. |
| `KeyedWrites.EveryScheduleKeepsInvariant` | backend/app/idempotency/service.py:68-102 | Over every schedule a key has at most one owner, committed rows are never revised, and each recorded key has exactly its one effect. |
| `KeyedWrites.FirstResultWins` | backend/app/idempotency/service.py:25-153 | Calls with one fingerprint all return the first result, another fingerprint gets a conflict, and an effect is committed exactly when its recorded result is. |
| `KeyedWrites.CommittedByOneCall` | backend/app/idempotency/service.py:25-65 | Over every schedule a recorded key was recorded by one call, whose operation gave the recorded reply and made the change committed with it. |
| `KeyedWrites.CallGetsThrough` | backend/app/idempotency/service.py:25-102 | A call with whose key nobody else is busy gets through, as one atomic write, disturbing no other. |
| `KeyedWrites.BlockedFlushCanProceed` | backend/app/idempotency/service.py:85-102 | A blocked flush waits only for a transaction that can itself still step. |
| `KeyedWrites.Session.Claim` | backend/app/idempotency/service.py:68-102 | The claim code, with a rival commit between look-up and flush, resolves against the first committed row or owns the key. |
| `KeyedWrites.Session.Execute` | backend/app/idempotency/service.py:25-65 | One caller's whole call equals one atomic write after whatever the rival committed; a raising operation leaves nothing. |
| `StartRun.SuccessQueuesThePlan` | backend/app/discovery/service.py:154-240 | Over every interleaving of concurrent callers, refused enqueues and workers taking jobs: when a caller succeeds, the queue has accepted for its run exactly the planned queries, and its key has that one run with one committed effect, which every other caller on the key gets too. |
| `StartRun.FreshStartSucceeds` | backend/app/discovery/service.py:154-240 | A start under a free key commits its own run and succeeds when the queue takes its jobs. |
| `StartRun.RetryHeals` | backend/app/discovery/service.py:208-240 | In every such state a retry comes to enqueue the recorded run; however the queue then answers, taking jobs or knowing them already, it succeeds exactly when nothing is refused, and writes nothing more; and no refusal is forced, as jobs accepted before may be known. |
| `StartRun.SuccessIsUnrefused` | backend/app/discovery/queue.py:61-88 | Over every interleaving, a caller succeeds exactly when the queue has answered each planned query and refused none, and a caller that fails is told exactly the queries refused to it. |
| `StartRun.EveryScheduleKeepsConsistent` | backend/app/discovery/service.py:154-240 | Over the same interleavings distinct keys have distinct runs and every accepted job names a committed run and one of its planned queries. |
| `JobQueue.JobIdIdentifies` | backend/app/discovery/queue.py:67-75 | Distinct workspace, run and query triples have distinct job ids. |
| `JobQueue.Queue.EnqueueDiscoveryQueries` | backend/app/discovery/queue.py:49-88 | The fan-out attempts every query even after a refusal and reports exactly the accepted job ids, in order, and the refused queries. |
| `JobQueue.JobsOfMeaning` | backend/app/discovery/queue.py:67-88 | The accepted ids are those of the queries that are not refused, in their order. |
| `JobQueue.UniqueCandidates` | backend/app/discovery/queue.py:101-118 | The deduplicating dictionary holds each fetchable Candidate id once, first URL first. |
| `FrozenPlan.LoadFrozenPlan` | backend/app/discovery/service.py:68-138 | Accepts exactly the documents that meet all its checks, and returns their ids in order, non-empty, distinct and of the shape later refusals insist on; any other raises its first fault, and which. |
| `FrozenPlan.LoadableExactly` | backend/app/discovery/service.py:80-130 | Those documents, written out: schema 1, a variant, and one entry or more, all objects with a query id, a text and well-typed options, no two with one id. |
| `JsonRoundTrip.DumpsReadsBack` | backend/app/conversations/normalizer.py:40-48 | The compact printer is unambiguous: its text reads back to the printed value, for strings, numbers, arrays and objects of any depth. |
| `JsonGrammar.LoadsExactly` | backend/app/evidence/store.py:684-695 | Parsing a stored text gives a value exactly when the text spells that value with white space around it, by a grammar written out apart from the reader; so no text spells two values. |
| `JsonGrammar.EscapesAreShortest` | backend/app/conversations/normalizer.py:40-48 | A character is printed by a shortest of its spellings, control characters with lower-case digits. |
| `JsonGrammar.WholesArePrinted` | backend/app/conversations/normalizer.py:40-48 | A whole number is printed as its digits, with a minus sign exactly when it is negative. |
| `CanonicalJson.CanonicalTextReadsBack` | backend/app/conversations/normalizer.py:40-59 | Reading the canonical text gives the value with keys sorted and numbers as the runtime writes them, exponents included. |
| `CanonicalJson.CanonicalTextIdentifiesData` | backend/app/conversations/normalizer.py:40-63 | In Python two payloads have one canonical text exactly when they mean the same data, objects being dictionaries and numbers their values; in Node too where whole numbers are doubles. |
| `CanonicalJson.MeaningIsKept` | backend/app/conversations/normalizer.py:51-59 | Canonicalizing never changes what a payload means, in Node where whole numbers are doubles. |
| `CanonicalJson.RenderingIsStable` | packages/obscura-retrieval/src/json.js:3-15 | A canonical value renders to the text it came from, in Node where whole numbers are doubles. |
| `CanonicalJson.RuntimesAgree` | packages/obscura-retrieval/src/json.js:3-15 | Python's text and Node's are equal exactly for payloads whose keys both runtimes order alike and whose numbers both write alike. |
| `CanonicalJson.WhenNumbersAgree` | backend/app/conversations/normalizer.py:51-59 | Which those are: whole numbers up to 2^53, larger ones whose digits Node keeps, and fractions without four to eight zeros after the point of a number below one. |
| `CanonicalMeaning.MembersInOrder` | packages/obscura-retrieval/src/json.js:3-15 | The canonical object has the payload's members, in Python in code point order, in Node with array indices first by value and then by UTF-16 code units. |
| `CanonicalMeaning.RoundsToNearest` | packages/obscura-retrieval/src/json.js:13-15 | Node's whole number is a double no double is nearer than, of two equally near ones the one with an even significand. |
| `CanonicalMeaning.WholesAreWritten` | backend/app/conversations/normalizer.py:51-59 | Python writes every whole number, float or not, as it is; Node one up to 2^53, and of a larger one only what its double decides. |
| `CanonicalMeaning.SmallFractionsAreWritten` | backend/app/conversations/normalizer.py:40-48 | A fraction is written with an exponent exactly when it is below 0.0001 in Python and below 0.000001 in Node, digits and exponent written out. |
| `CanonicalJson.LargeWholesDisagree` | packages/obscura-retrieval/src/json.js:3-15 | 9007199254740993 is written differently, and Node writes it like its neighbour. |
| `CanonicalJson.NumericKeysDisagree` | packages/obscura-retrieval/src/json.js:3-11 | A two-key payload on which they differ. |
| `ManifestReading.ReadingInvertsWriting` | backend/app/evidence/store.py:343-422 | Reading the manifest of valid descriptors gives them back in name order. |
| `ManifestReading.OnlyCanonicalManifestsRead` | backend/app/evidence/store.py:362-422 | Manifest data that reads is exactly the canonical manifest of the valid, sorted descriptors it gives. |
| `ManifestReading.ManifestsThatRead` | backend/app/evidence/store.py:362-422 | A parsed manifest.json reads exactly when it holds no whole number written as a float and means the canonical manifest of some valid descriptors. |
| `ManifestReading.PreparesTheAcceptable` | backend/app/evidence/store.py:168-359 | Finalization's checks, in their order with running totals, pass exactly for inputs meeting a condition that mentions no order. |
| `ManifestTexts.NamesThatPass` | backend/app/evidence/store.py:158-186 | A name passes exactly when it is a text within its width in UTF-8, without a backslash or a drive, whose pieces between slashes are neither empty nor dots; and what it raises otherwise. |
| `ManifestTexts.TextsThatPass` | backend/app/evidence/store.py:158-165 | A text passes exactly when it is not empty, has no U+0000 and its UTF-8 encoding fits. |
| `ManifestTexts.DigestsExactly` | backend/app/evidence/store.py:396-403 | A digest in a manifest is sixty-four lower-case hexadecimal digits. |
| `ManifestTexts.ValidationRaises` | backend/app/evidence/store.py:189-212 | Validation raises the fault of the first faulty input, and without one a limit exactly for no inputs or too many. |
| `ManifestTexts.ReadingRaises` | backend/app/evidence/store.py:245-290 | Reading stops at the first input it cannot read within the limits, alone or in total, and says which of the two it was. |
| `ManifestReading.OrderIsIrrelevant` | backend/app/evidence/store.py:343-359 | Permuting the artifacts changes neither whether finalizing succeeds nor the manifest text. |
| `ManifestReading.DigestIdentifiesArtifacts` | backend/app/evidence/store.py:343-359 | Where the digests of two requests' contents and manifests do not collide, one identity means the same names, roles, media types and bytes. |
| `EvidenceStore.FinalizeIsSound` | backend/app/evidence/store.py:520-552 | A finalization keeps every entry verifying and unchanged, succeeds exactly for acceptable artifacts, and its bundle verifies. |
| `EvidenceStore.FinalizedStaysReadable` | backend/app/evidence/store.py:520-582 | Where its digests collide with nothing the store holds, an acceptable request is finalized under its own identity, and after any later finalizations verifies and opens to exactly its source bytes. |
| `EvidenceStore.VerifyMeaning` | backend/app/evidence/store.py:573-582 | A bundle verifies exactly when the store holds that very bundle, it is the one that some valid descriptors make, and the bytes held are those they list. |
| `EvidenceStore.OpenDecides` | backend/app/evidence/store.py:554-571 | What opening answers in each case, in the order of its checks. |
| `EvidenceStore.ReadInputs` | backend/app/evidence/store.py:525-532 | The reading loop gives the descriptors, the contents by name, or the first error, under the running total. |
| `EvidenceStore.InMemoryEvidenceStore.FinalizeBundle` | backend/app/evidence/store.py:520-552 | The in-memory adapter's finalization is the abstract store's. |
| `EvidenceStore.InMemoryEvidenceStore.OpenArtifact` | backend/app/evidence/store.py:554-571 | Its open returns the abstract store's bytes or error. |
| `LocalStore.StageArtifacts` | backend/app/evidence/store.py:793-803 | Staging every artifact succeeds like reading them, and only if no two names collide as paths. |
| `LocalStore.LocalEvidenceStore.FinalizeBundle` | backend/app/evidence/store.py:776-825 | Undisturbed, the filesystem adapter has the in-memory adapter's result and store, except that names of which one is a path prefix of another raise, and an identity taken by another manifest is an integrity error, both changing nothing. |
| `LocalStore.VerifyAgrees` | backend/app/evidence/store.py:705-774 | Reading directory, manifest text and files back verifies exactly the bundles the abstract store verifies. |
| `LocalStore.OpenAgrees` | backend/app/evidence/store.py:827-842 | Both adapters open alike exactly unless a valid bundle is not the one held under its identity. |
| `LocalStore.LoadsWhatIsHeld` | backend/app/evidence/store.py:684-703 | On a complete tree, finding an existing directory gives the bundle exactly when it is the one held, else an integrity error, and never BundleNotFound. |
| `LocalStore.LoadAnswers` | backend/app/evidence/store.py:684-703 | On any tree, damaged ones included: BundleNotFound exactly when the directory or its manifest is missing, the bundle exactly when the manifest parses to the bundle's own and the files are exactly the ones it lists with their lengths and digests, else an integrity error. |
| `LocalStore.StagedIsWhole` | backend/app/evidence/store.py:804-814 | What staging leaves for acceptable artifacts is complete: its manifest text parses back and its files match. |
| `LocalStore.NestedNamesCollide` | backend/app/evidence/store.py:168-186 | Two names that validation accepts together and one directory cannot hold. |
| `LocalStore.CollidesMeaning` | backend/app/evidence/store.py:793-803 | Two names collide as paths exactly when they are equal or one is a directory on the way to the other. |
| `StoreCrashes.StepIsSafe` | backend/app/evidence/store.py:776-825 | Any step of any finalizer, a stop that leaves its staging in any condition included, keeps every digest-named directory complete and unchanged, with nothing assumed of the digest. |
| `StoreCrashes.EveryHistoryIsSafe` | backend/app/evidence/store.py:776-825 | So does every interleaving of any number of them: a digest-named directory is absent, or complete and verifying for ever. |
| `StoreCrashes.FinishedStaysReadable` | backend/app/evidence/store.py:776-853 | From the empty disk, over every history: a finalizer that returned a bundle returned its request's own, which verifies after any later history, and opens to the request's bytes unless those collide with other published bytes. |
| `StoreCrashes.FailuresHaveCauses` | backend/app/evidence/store.py:814-825 | Over every history from the empty disk, an acceptable request without colliding names fails only when its identity is published: by losing the rename race, or because another manifest is there. |
| `StoreCrashes.NeverNotFound` | backend/app/evidence/store.py:684-703 | Over every such history no finalizer raises BundleNotFound. |
| `StoreCrashes.FinalizerGetsThrough` | backend/app/evidence/store.py:776-825 | On every sane disk where its identity is free, a finalizer left alone comes to its rename and gets its bundle. |
| `StoreCrashes.PublishedIsFound` | backend/app/evidence/store.py:776-825 | On every sane disk where its identity is already published, a finalizer left alone never comes to a rename: it has its bundle exactly when that is the one held, an integrity error otherwise, publishes nothing and leaves no staging directory. |
| `StoreCrashes.RaceIsReachable` | backend/app/evidence/store.py:814-820 | Two finalizers of any acceptable request can both come to the rename with no destination there. |
| `StoreCrashes.SecondRename` | backend/app/evidence/store.py:814-820 | Of two finalizers of one bundle that both saw no destination, the second gets the bundle exactly when its rename fails as already existing, and an uncaught error when it fails as not empty. |
| `Threads.ThreadBuilder.ParseChildren` | backend/app/conversations/normalizer.py:155-208 | Appending while recursing raises exactly when something it visits cannot be read, and otherwise collects exactly the preorder of the reply forest and its unresolved nodes, a malformed comment dropped with its subtree. |
| `ThreadNormalization.NormalizeRedditThread` | backend/app/conversations/normalizer.py:113-264 | The accumulating code computes the normalization that the lemmas are about, `ThreadPayloads` for what is read and `ThreadValidation` for the summary. |
| `ThreadPayloads.NormalizingInvertsWriting` | backend/app/conversations/normalizer.py:113-208 | In both runtimes a thread written in Reddit's shape, under Reddit's names, to any depth, normalizes to that very post, its comments in preorder and its unresolved nodes. |
| `ThreadPayloads.NormalizeFailsExactly` | backend/app/conversations/normalizer.py:118-135 | In both runtimes normalizing fails exactly for no array, too few listings in Python, no post with an id, an unrenderable time in Node, or something unreadable on a path that the traversal takes. |
| `ThreadPayloads.KeptExactly` | backend/app/conversations/normalizer.py:155-208 | A child is kept exactly as a comment with an id or an unresolved node with something in it; anything else goes with all under it. |
| `ThreadPayloads.PostDataMeaning` | packages/obscura-retrieval/src/reddit.js:77-80 | Where either runtime finds the post: Node also in an object that numbers its children. |
| `ThreadPayloads.ReadingsMeaning` | backend/app/conversations/normalizer.py:62-111 | How each runtime reads a field of any shape: by type in Python, by truth in Node. |
| `ThreadPayloads.MissingFieldsMeaning` | packages/obscura-retrieval/src/reddit.js:93-131 | What stands for a missing name, counter, child list or depth. |
| `ThreadValidation.OrphansMeaning` | backend/app/conversations/normalizer.py:219-223 | The missing-parent references are exactly the comments, in order, whose parent is neither the post nor any comment's id, each with id and parent. |
| `ThreadValidation.SummaryMeaning` | backend/app/conversations/normalizer.py:224-259 | The summary's counts are those of the comments, distinct ids, unresolved nodes and children they name; its depth is the greatest there is; and its class compares the reported total with comments found and children unresolved. |
| `ThreadValidation.DuplicatesMeaning` | backend/app/conversations/normalizer.py:209-218 | In both runtimes the duplicates are the ids of two comments or more, each listed once. |
| `ThreadNormalization.DuplicatesBySeenSet` | backend/app/conversations/normalizer.py:211-218 | The prefix-and-seen-set loop lists the repeated ids in order of second occurrence. |
| `ThreadNormalization.RepeatsMeaning` | backend/app/conversations/normalizer.py:211-218 | That list holds each id that occurs at least twice, once, and no other. |
| `ThreadNormalization.DuplicatesByIndexOf` | packages/obscura-retrieval/src/reddit.js:136-138 | indexOf filtering with a Set gives the same list. |
| `ThreadNormalization.NormalizersAgree` | packages/obscura-retrieval/src/reddit.js:77-173 | On well-typed payloads, reported depths and timestamps within both runtimes' range included, the two normalizers raise alike and return the same post, comments, unresolved nodes and validation. |
| `ThreadNormalization.TextAgrees` | backend/app/conversations/normalizer.py:105-110 | The two readings of a text field agree exactly when it is text or falsy in Node. |
| `ThreadNormalization.TimeAgrees` | packages/obscura-retrieval/src/reddit.js:91-92 | The two readings of a timestamp agree exactly when it is a non-zero number, or falsy and no number; and then the two renderings exactly when both accept it and give one text. |
| `ThreadNormalization.MoreAgrees` | packages/obscura-retrieval/src/reddit.js:122-130 | An unresolved node is kept by both or neither exactly unless its data is truthy in Node without being a non-empty object. |
| `ThreadNormalization.OneListingDisagrees` | backend/app/conversations/normalizer.py:119-121 | With fewer than two listings the two agree exactly when Node finds no post either, or throws on its timestamp. |
| `ThreadRebuild.RebuildInvertsPreorder` | backend/app/conversations/normalizer.py:158-190 | The flat comments with their depths rebuild the comment forest they came from. |
| `ThreadRebuild.FlatteningLosesNothing` | backend/app/conversations/normalizer.py:158-204 | So for every payload whose reported depths are absent or agree with nesting. |
| `ContentIdentity.VolatileFieldsAreExcluded` | backend/app/conversations/normalizer.py:266-289 | Scores, ratios, reported counts and rendered timestamps do not reach the content hash. This follows from how the hashed record is built; what the hash identifies is `ContentMeaning.HashIdentifiesContent`. |
| `ContentMeaning.HashIdentifiesContent` | backend/app/conversations/normalizer.py:266-289 | Two payloads have one content hash exactly when their threads have the same post, comments and unresolved nodes, field by field and in order, but for scores, ratios, reported counts and rendered times. |
| `ContentMeaning.ContentNames` | backend/app/conversations/normalizer.py:266-289 | The hashed record is a dictionary of the post, the comments in order and the unresolved nodes in order. |
| `ContentMeaning.PostNames` | backend/app/conversations/normalizer.py:267-274 | The names the post's fields are hashed under. |
| `ContentMeaning.CommentNames` | backend/app/conversations/normalizer.py:275-286 | The names a comment's fields are hashed under, its visibility spelled out. |
| `ContentMeaning.MoreNames` | backend/app/conversations/normalizer.py:191-204 | The names an unresolved node's fields are hashed under. |
| `ContentIdentity.HashDecidesExhaustion` | backend/app/conversations/normalizer.py:266-289 | Payloads with one content hash mean the same content and are both exhausted or both not. |
| `Conversations.JoinedIsInjective` | backend/app/conversations/service.py:64-86 | NUL-joined identity names determine their parts. |
| `Conversations.ConversationTables.Normalize` | backend/app/conversations/service.py:151-324 | One replay, with look-up, savepoint insert and second look-up per row and any rows committed by others in between, has exactly the specified result and tables as if those had come first; a conflict rolls its own rows back, and the unique indexes hold. |
| `ConversationReplay.OneReplay` | backend/app/conversations/service.py:108-324 | In any replayed state, replaying succeeds exactly when the normalizer has a name, the workspace is the observation's, and it is a bundle-backed thread fetch whose raw artifact normalizes to the thread it names, agrees with each frozen hash there is, and is exhausted exactly if it claims success; it records exactly what the observation stands for and reports truly what is new. |
| `ConversationReplay.RefusedReplays` | backend/app/conversations/service.py:269-310 | On any tables: an unknown observation or another workspace is a lookup error, and a known one that its evidence does not bear out is a normalization error, exactly. |
| `ConversationReplay.FactTells` | backend/app/conversations/service.py:64-86 | What an observation stands for, written out: the rows with every column, and the derived identifiers. |
| `ConversationReplay.StoredVersionsTellTheirThread` | backend/app/conversations/service.py:108-233 | After any replays, every stored version was written by the first of its observations from a raw artifact that names the version's own stored Conversation, with that thread's hashes and exhaustion. |
| `Conversations.ConflictsExactly` | backend/app/conversations/service.py:151-266 | When each get-or-create step raises a conflict, exactly; otherwise its row is there afterwards, one already there unchanged, and the unique indexes hold. |
| `ConversationReplay.ReplayHolds` | backend/app/conversations/service.py:269-324 | After any replays the tables hold exactly the rows of the eligible observations replayed. |
| `ConversationReplay.ReplayIgnoresOrder` | backend/app/conversations/service.py:269-324 | Any order with any repeats gives the same conversations and edges, and the same versions up to the first writer's volatile hash. |
| `ConversationReplay.ExhaustionAgrees` | backend/app/conversations/service.py:303-310 | Every edge lies under its derived identifier in its observation's workspace, and its version's exhaustion is what that observation reported as its status. |
| `CurrentVersions.KeepFirst` | backend/app/conversations/service.py:381-383 | The setdefault loop keeps the first version of each conversation. |
| `CurrentVersions.CurrentIsGreatest` | backend/app/conversations/service.py:336-392 | The version kept for a conversation is that of an edge that no other of its edges was observed after, nor, among those observed with it, recorded after, its normalizer and then its id deciding among equals. |
| `CurrentVersions.BatchIsPointwise` | backend/app/conversations/service.py:327-392 | The answer for a conversation does not depend on the other ids, on tie order or on recording order, and equals asking for it alone. |
| `Cursors.CursorRoundTrip` | backend/app/pagination.py:10-31 | A cursor decodes to its position exactly when its namespace has no colon, the position is positive and the text is within 200 characters. |
| `Cursors.OtherNamespaceRefuses` | backend/app/pagination.py:15-31 | A cursor of one endpoint is refused by every other. |
| `Cursors.Decode64Inverts` | backend/app/pagination.py:10-22 | Unpadded base64url decodes, with the padding put back, to the encoded bytes. |
| `Cursors.TextReadsUtf8` | backend/app/pagination.py:10-22 | Strict UTF-8 decoding gives every text back. |
| `Cursors.OnlyUtf8Reads` | backend/app/pagination.py:15-31 | And nothing else decodes: bytes that are no text's encoding, overlong forms and surrogates included, are refused. |
| `Cursors.DecodesExactly` | backend/app/pagination.py:15-31 | A cursor decodes exactly when it is within the limit and is base64url of the UTF-8 of this namespace, a colon and something that reads as a possible position, which is the answer. |
| `PageWalks.ObservationWalkIsComplete` | backend/app/discovery/service.py:259-300 | A finished oldest-first walk holds every row there was at the start, in order, once, with rows appended between requests. |
| `PageWalks.CampaignWalkIsExact` | backend/app/campaigns/service.py:112-170 | A finished newest-first walk is exactly the rows there were at the start, and enough requests finish it, whatever is appended. |
| `PageWalks.WalkTerminates` | backend/app/discovery/service.py:281-300 | On a table that does not change, the walk ends with exactly the table. |
| `PageWalks.WalksAreFaithful` | backend/app/discovery/service.py:259-300 | In both directions and with rows becoming visible anywhere between requests, as late commits do: a walk is in order without repeats, returns only rows that were there, and when it ends holds every row its first request could see past its cursor, so a late row is missed only if the walk was past it. |
| `PageWalks.PageMeaning` | backend/app/discovery/service.py:259-300 | One page lists, in order, the rows past its cursor up to the limit; it has a cursor exactly when it leaves some out, that of its last row, past which they all are. |
| `RedditUrls.CanonicalizingTwice` | packages/obscura-retrieval/src/reddit.js:16-37 | Canonicalizing a canonical URL keeps the source id and subreddit exactly unless its slug is a double dot, and then it is no thread URL. |
| `RedditPaths.CanonicalizesExactly` | packages/obscura-retrieval/src/reddit.js:4-36 | A path canonicalizes exactly when, stripped, it is optionally r and a subreddit, then comments, a post id, optionally a slug and a final slash, words and id in any case; and to what those parts say. |
| `RedditPaths.StripsSuffix` | packages/obscura-retrieval/src/reddit.js:24 | Over the path as one text, stripping removes a final .json or .json/ in any case, and nothing else. |
| `RedditPaths.CharactersExactly` | packages/obscura-retrieval/src/reddit.js:4 | Which characters are capitals, post-id characters and white space. |
| `RedditPaths.DotsExactly` | packages/obscura-retrieval/src/reddit.js:24 | The dot segments of URL parsing are one or two dots, each perhaps percent-encoded in either case. |
| `RedditPaths.DotsAreDropped` | packages/obscura-retrieval/src/reddit.js:24 | Parsing drops a single dot, and with a double dot the segment before it; at the end either leaves a slash. |
| `RedditUrls.DoubleDotSlugExists` | packages/obscura-retrieval/src/reddit.js:22-31 | A path that gives such a slug. |
| `RedditUrls.NormalizeDiscoveryRows` | packages/obscura-retrieval/src/reddit.js:49-75 | The loop lists the first row of each distinct thread, ranked from one, up to the limit, a limit of zero counting as one. |
| `RedditUrls.DistinctMeaning` | packages/obscura-retrieval/src/reddit.js:49-75 | That list has distinct ids, consecutive ranks and every canonical thread among the rows. |
| `RedditTexts.EntriesInOrder` | packages/obscura-retrieval/src/reddit.js:49-75 | Its entries are made from the first row of each thread, in row order, each ranked by its place. |
| `RedditUrls.SnippetIsTidy` | packages/obscura-retrieval/src/reddit.js:67-68 | A candidate's snippet keeps its characters in order, with single spaces inside and none at either end. |
| `RedditTexts.SnippetIsItsWords` | packages/obscura-retrieval/src/reddit.js:67-68 | A snippet is shown as its words with single spaces between them. |
| `RedditTexts.TrimMeaning` | packages/obscura-retrieval/src/reddit.js:67-69 | Trimming takes white space off both ends as far as it goes. |
| `RedditTexts.CandidateSays` | packages/obscura-retrieval/src/reddit.js:62-70 | What an entry says of its row, field by field. |

## Left out

- Announcement.CompletionIsAnnounced: is about a worker that survives; a publisher that dies announces nothing.
- FrozenPlan.LoadFrozenPlan: does not exclude plan ids of the thread form, because the loader does not; `RunSafety.PlanOk` assumes it of started runs.
- RunDatabase.Database.SettleRun: checks the row's columns before inserting instead of at the flush, with the same committed effect; what the columns take of texts and JSON not carried here is one given bit; a bundle row is keyed by workspace and digest, its other unique columns being derived from those.
- RunDatabase.Database.PersistUnenqueuedFetches: is given ids without U+0000, as its one caller has them from a stored row, and in a given order; the source sorts them first.
- Json.ReadNumber: keeps a token with an exponent as written, and reads no surrogate escapes, which the modelled printer never writes.
- CanonicalJson.RuntimesAgree: starts from parsed payloads; NaN and infinities, which Python refuses, are not values here, and the digits Node writes for a double beyond 2^53 are any function of the double.
- ManifestReading.OnlyCanonicalManifestsRead: a manifest above the size limit reads as None; in the source it raises, and every caller treats both as a failed check. A bundle that a caller hands in carries its manifest as data, where a whole float is not told from an integer.
- StoreCrashes.EveryHistoryIsSafe: a directory is its manifest text and its files by relative name; fsync, inode fingerprints, symlink checks, permission errors and case-folding filesystems are not modelled, and rename is atomic.
- LocalStore.LocalEvidenceStore.FinalizeBundle: keeps the staging directory in a local variable; `StoreCrashes` has the staging directories and what a stop leaves in them.
- ThreadNormalization.NormalizersAgree: asks payloads to be well typed, the per-field lemmas saying exactly where each reading differs otherwise; starts from one parsed payload, so whole numbers beyond 2^53 are as Python reads them; rendering a timestamp is any function in each runtime; Python's OverflowError and NormalizationError are both a missing result.
- ThreadRebuild.FlatteningLosesNothing: rebuilds comments; where unresolved nodes stood is kept only by their parent ids.
- Conversations.ConversationTables.Normalize: asks that no concurrent transaction puts another row under one of its derived ids, which only a uuid5 collision could do; when others commit within one insert is one moment per table.
- ConversationReplay.ReplayIgnoresOrder: fixes one normalizer name; the full hash, which order does decide, is the first writer's (`ConversationReplay.StoredVersionsTellTheirThread`).
- CurrentVersions.BatchIsPointwise: compares names and ids by code point; a database collation would be another total order.
- Cursors.CursorRoundTrip: what int() takes beyond an optional minus and decimal digits is any function.
- PageWalks.ObservationWalkIsComplete: order numbers become visible in increasing order; `PageWalks.WalksAreFaithful` is for transactions that commit out of sequence.
- RedditUrls.CanonicalizingTwice: starts from a parsed path; host checks, the DuckDuckGo unwrapping and percent-encoding are the URL library's.
- Candidate titles and ranks in transitions, and observation reasons, timestamps and versions in rows: carried along by the source without deciding anything.
- The Campaign lifecycle and `update_campaign`: a client of the keyed write with a five-edge transition table.
- Subprocess spawning, signals and browser work: a CLI attempt is an arbitrary result.
- SQLAlchemy, PostgreSQL, Redis, arq and FastAPI: only row locks, unique keys, bounded columns, atomic commit or abort and a set of job ids are modelled.
- The analysis enqueue after a thread fetch, the LLM runner, Opportunity scoring, text redaction, migrations, schemas and the frontend.
