# A verified model of the vocabulary services

This project models the algorithmic cores of the vocabulary application in Dafny and proves what they are
there for. `dafny verify dfyconfig.toml` checks everything.

| file | what it models |
|---|---|
| `Common.dfy`, `Text.dfy`, `Sorting.dfy` | shared vocabulary: optional values, words and single-space joining, decimal numerals, stable sorting, lists without repeats |
| `Diff.dfy`, `KnownMask.dfy`, `TwinMasks.dfy`, `Scan.dfy` | the assignment scanner: word diff, known-term mask, when it equals its Python twin, counters, matches, missing words and totals |
| `PhraseTrie.dfy`, `IndexProvider.dfy` | the mutable phrase trie against the phrase map it stands for, and the cached, debounced index against a full rebuild |
| `SyncQueue.dfy` | the asynchronous sync queue: lock sections as methods, and a state machine that interleaves producers, workers and shutdown calls |
| `JobQueue.dfy`, `ParsePipeline.dfy`, `SseFrames.dfy` | the gateway's job queue, the parse producer with its stream consumer and expiry timer, and the incremental reader of server-sent events |
| `Overlaps.dfy`, `MweDetection.dfy` | multi-word expression detection and the rank-ordered resolution of overlaps |
| `UnitCodes.dfy`, `UnitStore.dfy` | unit and subunit codes, and the two tables they live in |
| `CandidateSync.dfy` | candidate synchronisation: rounds over shared term sets, and the partition into accepted and rejected candidates |
| `LexiconStore.dfy` | the lexicon table with its version counter |
| `SheetTitles.dfy` | unique sheet titles of an Excel export |

Code that changes objects or arrays in place is a class or a method over arrays whose contract ties it to a
function of the old state; what the source promises is then proved about that function, about every run, or
about every interleaving. Concurrent parts are state machines whose steps are the lock sections (or single
statements outside a lock). Unknown answers of other services, clocks and timeouts are arbitrary inputs or
nondeterministic steps.

## What the proofs bring out

- A drained shutdown of the sync queue may strand an accepted job: a worker tests the stop flag after its idle
  snapshot, so it can leave on a snapshot older than the last accepted job (`SyncQueue.DrainMayStrand`). Once all
  workers have left, exactly the jobs accepted after the latest of their snapshots are stranded, except those that
  a cancelling shutdown still removes (`SyncQueue.StrandedIffAcceptedLate`); with the two statements in one lock
  section none ever is.
- The gateway spreads the parse payload over `type: 'result'`, so a payload with a `type` field of its own
  renames the event. The stream lacks its `done` exactly when that field is `done` or `error`
  (`ParsePipeline.StreamGrammar`).
- The string walk of the TypeScript scanner and the tuple walk of the Python scanner tile every text alike if and
  only if every short term is stored with single spaces (`TwinMasks.TilingsAgreeIff`). The masks they return may be
  equal without that: they are with the rows `a`, `b` and `a  b` (`TwinMasks.AlikeThoughUnspaced`), and they are
  not with `a  b` alone (`TwinMasks.DoubleSpaceDiffers`). They are equal on every text exactly when a set of races
  between the two walks is closed, which is a finite search over the rows' own words (`TwinMasks.MasksAgreeIff`).
- `buildIndex` collects its lists in a plain object, which inherits members. A lexicon that lists the single word
  `constructor` or `__proto__` makes it fail, and nothing keeps such a word out (`LexiconStore.ConstructorBlocks`);
  for every other lexicon it answers (`LexiconStore.LexiconRepository.BuildIndex`).
- The word diff has exactly one change between two equal chunks, and the branch of the merge that joins an insert
  with a delete behind it never acts (`Diff.WalkDeletesFirst`, `Diff.MergeTakesTurns`). Among the longest common
  subsequences it shows the one with the earliest words of the completed text (`Diff.WalkIsChosen`).
- Overlap resolution is idempotent for all candidates, not only when token offsets increase
  (`Overlaps.DedupeIsIdempotent`).
- A sheet title may take |used| + 2 tries, one more than the number of distinct suffixes suggests, exactly when
  the base ends in a suffix where it is cut (`SheetTitles.TriesBoundIff`, `SheetTitles.RecurringBase`). It may also
  end in an apostrophe, which the code strips from the base before it cuts (`SheetTitles.TitleIsPlain`).
- The accepted and the rejected candidates have no form in common, for every candidate list, exactly when the
  entries of the category table agree on each form (`CandidateSync.SplitsIff`). The canonicalised tables of the
  call sites do (`CandidateSync.CallSitesSplit`); a raw table need not (`CandidateSync.RawTableFails`).

## Model

| member | source | states |
|---|---|---|
| `Text.WordsOfJoin` | backend/services/assignments-service/src/scanner.ts:246-249 | joining blank-free tokens with single spaces loses nothing: splitting the text gives the same tokens back |
| `Text.JoinInjective` | backend/services/assignments-service/src/scanner.ts:246-249 | two token lists with the same joined text are the same list, so comparing joined strings is comparing tokens |
| `Text.TrimIsInside` | backend/services/assignments-service/src/scanner.ts:181-181 | trimming takes off blanks at the two ends and nothing else |
| `Text.WordsOfSpread` | backend/python_services/core/domain/services/assignment_scanner_service.py:217-226 | splitting gives back the tokens of a text whatever blanks stand before, between and behind them |
| `Diff.LcsBounds` | backend/services/assignments-service/src/scanner.ts:290-296 | no common subsequence of two suffixes, however it is embedded in them, is longer than their table cell |
| `Diff.FillTable` | backend/services/assignments-service/src/scanner.ts:287-296 | the table filled backwards in place holds the longest-common-subsequence length of every pair of suffixes |
| `Diff.WalkTable` | backend/services/assignments-service/src/scanner.ts:297-352 | the runs spell the token-by-token walk over the table, neighbours differ in operation, each side read off the runs is its text, and the equal words number the top-left cell |
| `Diff.WalkIsEarliest` | backend/services/assignments-service/src/scanner.ts:297-340 | however else a longest common subsequence is matched, the walk's pairs use the earliest possible words of the completed text: at the first difference the other matching has a later word there |
| `Diff.WalkIsChosen` | backend/services/assignments-service/src/scanner.ts:297-340 | which matching the walk shows, told against any other one of that length: the earlier word of the completed text, and, for the same word, the earlier word of the original when it directly follows the pair before it, the later one when words of the completed text are skipped |
| `Diff.WalkDeletesFirst` | backend/services/assignments-service/src/scanner.ts:315-340 | between two equal runs the walk deletes first and inserts then: an insert run is never followed by a delete run |
| `Diff.MergeReplaceChunks` | backend/services/assignments-service/src/scanner.ts:356-371 | the merged list is the runs with delete/insert neighbours joined from the left: same words on each side, same equal words at the same places, a lone delete or insert is followed only by an equal chunk and no two equal chunks are neighbours |
| `Diff.MergeTakesTurns` | backend/services/assignments-service/src/scanner.ts:356-371 | when deletes come first, merging leaves exactly one change between two equal chunks: equal chunks and changes take turns |
| `Diff.EqualIsCommon` | backend/services/assignments-service/src/scanner.ts:300-314 | whatever the chunk list, the words of its equal chunks stand in both sides at the places where these chunks stand, so they are a common subsequence |
| `Diff.EqualIsLongest` | backend/services/assignments-service/src/scanner.ts:297-352 | when the equal words of a chunk list number the top-left cell, they are a longest common subsequence of the two texts |
| `Diff.BuildDiffChunks` | backend/services/assignments-service/src/scanner.ts:286-354 | both texts come back word for word; the equal words are a longest common subsequence, and among all matchings of that length the one shown has the earliest words of the completed text, with the stated choice in the original; equal chunks and changes take turns |
| `KnownMask.CoverIsCover` | backend/services/assignments-service/src/scanner.ts:243-261 | the walk's tiles are stored terms, each the longest at its start, disjoint and in order, and a position under no tile starts no stored term up to the length cap |
| `KnownMask.CoverIsUnique` | backend/services/assignments-service/src/scanner.ts:243-261 | there is only one such leftmost-longest cover, so the mask is determined by the terms and the tokens |
| `KnownMask.BuildKnownMask` | backend/services/assignments-service/src/scanner.ts:227-263 | the mask is true exactly under the tiles of the leftmost-longest cover by the terms that a row spells with single spaces |
| `KnownMask.ShortTermIsKnown` | backend/services/assignments-service/src/scanner.ts:228-258 | a stored term of up to six words is known wherever it stands in a text: its first word is under a tile of the tuple walk, and of the string walk when its row is single-spaced |
| `KnownMask.ShortTermAlone` | backend/services/assignments-service/src/scanner.ts:228-258 | as a whole text such a term is one tile |
| `KnownMask.TilesAreShort` | backend/services/assignments-service/src/scanner.ts:228-258 | no tile has more than six words, whatever the rows |
| `KnownMask.LongTermIsUnknown` | backend/services/assignments-service/src/scanner.ts:228-258 | a row of more than six words alone makes no word of any text known |
| `KnownMask.BuildKnownMaskTuples` | backend/python_services/core/domain/services/assignment_scanner_service.py:208-245 | the tuple mask is true exactly under the tiles of the cover by all the rows' terms |
| `TwinMasks.TwinMasksAgree` | backend/python_services/core/domain/services/assignment_scanner_service.py:208-245 | on the same tokens the string mask and the tuple mask are equal, when every term short enough to match is spelled with single spaces by some row |
| `TwinMasks.TilingsAgreeIff` | backend/python_services/core/domain/services/assignment_scanner_service.py:228-243 | the two walks tile every text alike (not only mark the same tokens) if and only if every short term is spelled with single spaces by some row |
| `TwinMasks.MasksAgreeMeans` | backend/python_services/core/domain/services/assignment_scanner_service.py:208-245 | the masks that the two implementations return for a text are equal if and only if the two walks, read as functions of the remaining text, are |
| `TwinMasks.OddTermMasks` | backend/python_services/core/domain/services/assignment_scanner_service.py:208-245 | on its own words, a short term that no row spells with single spaces makes the masks differ if and only if the spelled terms leave one of the words uncovered |
| `TwinMasks.AlikeThoughUnspaced` | backend/python_services/core/domain/services/assignment_scanner_service.py:208-245 | with the rows `a`, `b` and `a  b` (two spaces) the condition on single spaces fails and yet the masks are equal on every text |
| `TwinMasks.AlphabetDecides` | backend/python_services/core/domain/services/assignment_scanner_service.py:208-245 | the two masks are equal on every text if and only if they are on the texts over the words of the rows' terms and one further token (`FurtherToken`: there always is one) |
| `TwinMasks.MasksAgreeIff` | backend/python_services/core/domain/services/assignment_scanner_service.py:208-245 | the two masks are equal on every text if and only if some set of races is closed: wherever one walk is ahead, the walk behind marks on and draws level, stays behind or gets ahead in a race of the set; the races and the texts looked at are finitely many, of at most twice the length cap of those tokens, so the condition is checkable from the rows alone |
| `TwinMasks.DoubleSpaceDiffers` | backend/python_services/core/domain/services/assignment_scanner_service.py:208-245 | the masks can differ: a row with the text `a  b` (two spaces) makes the tokens a, b known to the tuple mask only |
| `Scan.BuildNgramCounters` | backend/services/assignments-service/src/scanner.ts:214-225 | for each size up to the cap the counter gives every text the number of positions where it is the joined n-gram |
| `Scan.CountIsPlaces` | backend/services/assignments-service/src/scanner.ts:214-225 | that number is the size of the set of those positions |
| `Scan.MatchTerms` | backend/services/assignments-service/src/scanner.ts:175-212 | one match for each row whose term occurs, with its number of occurrences, category and source, and none for the others; sorted by falling occurrences, term, category and id |
| `Scan.MatchesInWords` | backend/services/assignments-service/src/scanner.ts:175-212 | a match is reported as often as it is the match of a row: the row's id, category and source, its trimmed term of one to six words, and as occurrences the number of positions where that many tokens, joined by single spaces, are the term |
| `Scan.OccurrenceIsKnown` | backend/services/assignments-service/src/scanner.ts:193-200 | every occurrence that the counters count for a stored term starts on a token that the mask marks known |
| `Scan.TileIsCounted` | backend/services/assignments-service/src/scanner.ts:193-200 | the text under a tile of the mask is some row's term and is counted at least once |
| `Scan.MatchesIffKnown` | backend/services/assignments-service/src/scanner.ts:62-63 | there is a match if and only if some token is known: counters and mask agree although they are computed apart |
| `Scan.CollectMissingWords` | backend/services/assignments-service/src/scanner.ts:265-284 | each unknown word of two or more letters is listed once with the number of its unknown occurrences, no other word is; sorted by falling occurrences, then word; the occurrences sum to the unknown tokens of that length |
| `Scan.MissingInWords` | backend/services/assignments-service/src/scanner.ts:265-284 | a word is listed with a number exactly when it has two or more letters and that positive number of unknown positions |
| `Scan.TokensAreConserved` | backend/services/assignments-service/src/scanner.ts:64-66 | every token is known, unknown with two or more letters, or unknown with one: the three numbers add up to the word count |
| `Scan.KnownRows` | backend/services/assignments-service/src/scanner.ts:60-60 | the rows that take part are exactly the approved ones and the ones whose review is pending |
| `Scan.CoverageIsMonotone` | backend/services/assignments-service/src/scanner.ts:67-67 | coverage lies between 0 and 100, is 100 when all words are known, and never falls when more of them are |
| `Scan.CoverageIsClose` | backend/services/assignments-service/src/scanner.ts:67-67 | with a rounding that moves numbers by 0.005 at most, coverage times the word count is within 0.005 times the word count of 100 times the known tokens |
| `Scan.OrderInWords` | backend/services/assignments-service/src/scanner.ts:211-211 | both lists begin with what occurs most; terms break ties, then categories, then entry ids |
| `Scan.ScanAssignment` | backend/services/assignments-service/src/scanner.ts:49-88 | for one scan over the known rows: word count = known + unknown = known + sum of missing occurrences + unknown single letters; matches, missing words and the known count are those read off the rows, the tokens and the mask position by position; matches are non-empty exactly when the known count is positive; both lists are in the report's order; the status is completed exactly when the coverage reaches the threshold; the diff is optimal over the two texts |
| `PhraseTrie.PhraseTrieMatcher.AddPhrase` | backend/python_services/infrastructure/nlp/phrase_matcher.py:22-29 | growing the trie in place changes the phrase map it stands for at that phrase only, and not at all for a phrase of fewer than two tokens; no other stored phrase is lost |
| `PhraseTrie.FromPhrases` | backend/python_services/infrastructure/nlp/phrase_matcher.py:31-39 | the built trie stands for exactly the given phrases of two or more tokens |
| `PhraseTrie.PhraseTrieMatcher.LongestMatches` | backend/python_services/infrastructure/nlp/phrase_matcher.py:41-63 | one match, in order, for each start where a stored phrase with categories begins, none elsewhere; it is the longest such phrase, with that phrase's own categories |
| `PhraseTrie.PhraseTrieMatcher.IterPhrases` | backend/python_services/infrastructure/nlp/phrase_matcher.py:65-72 | the stack walk ends and yields every stored phrase that has categories exactly once, with its own categories |
| `PhraseTrie.Expand` | backend/python_services/infrastructure/nlp/phrase_matcher.py:68-72 | replacing the top of the stack by its children visits exactly one new path and keeps every unvisited path below exactly one stacked one |
| `IndexProvider.BuildIndexes` | backend/python_services/infrastructure/nlp/index_provider.py:126-138 | a key is in the built index exactly when some entry has it, with exactly the categories of such entries |
| `IndexProvider.IndexIsUnique` | backend/python_services/infrastructure/nlp/index_provider.py:126-138 | the set of entries determines the index |
| `IndexProvider.ApplyIsBuild` | backend/python_services/infrastructure/nlp/index_provider.py:106-124 | applying entries to a built index gives the build of all of them, whatever the order, batching or repeats |
| `IndexProvider.ApplyConcat` | backend/python_services/infrastructure/nlp/index_provider.py:106-124 | applying two batches one after the other is applying them as one |
| `IndexProvider.RunIsCoherent` | backend/python_services/infrastructure/nlp/index_provider.py:47-124 | over every run of additions, reads and invalidations of an add-only lexicon, with any debounce: snapshot plus held-back entries is the full build of the lexicon, and a snapshot at the current version is that build alone |
| `IndexProvider.SnapshotIsRebuild` | backend/python_services/infrastructure/nlp/index_provider.py:47-63 | after any run, a snapshot returned at the current version is the fresh rebuild; without a debounce every returned one is; an older one is returned only inside the debounce window, as a cache hit, and still completes to the rebuild |
| `IndexProvider.CacheIsUsed` | backend/python_services/infrastructure/nlp/index_provider.py:47-63 | a snapshot at the current version is returned as a hit, the state unchanged, when nothing is held back or the debounce window is still open |
| `IndexProvider.HitIff` | backend/python_services/infrastructure/nlp/index_provider.py:47-63 | a read is a hit exactly when, once what is due has been applied, there is a snapshot and it is current or the window is still open; a hit returns that snapshot as it is, any other read puts the fresh build at the current version |
| `IndexProvider.SecondGetHits` | backend/python_services/infrastructure/nlp/index_provider.py:51-52 | in a run, a second read at an unchanged version is a hit with the same snapshot: without a debounce always, and with one when the first answer was current and nothing is held back or the window is still open |
| `IndexProvider.HeldBackAreApplied` | backend/python_services/infrastructure/nlp/index_provider.py:91-104 | once the window has closed, all held-back entries are applied in order at their version, none is held back any more, and the window starts anew; before that nothing happens |
| `IndexProvider.AnnouncementInWords` | backend/python_services/infrastructure/nlp/index_provider.py:71-84 | an announced entry is forgotten without a snapshot, applied at once at its version without a debounce, and else held back under the greatest version announced, or, when the window has closed, applied with all the others |
| `IndexProvider.LexiconIndexProvider.Get` | backend/python_services/infrastructure/nlp/index_provider.py:47-63 | the object follows the state machine, a hit at an unchanged version with nothing held back leaves it as it is, and the published trie holds exactly the published multi-word map |
| `IndexProvider.LexiconIndexProvider.ApplyNew` | backend/python_services/infrastructure/nlp/index_provider.py:71-84 | the object follows the state machine when an entry is announced, the trie being rebuilt with the map |
| `IndexProvider.LexiconIndexProvider.MaybeApply` | backend/python_services/infrastructure/nlp/index_provider.py:91-104 | the object follows the state machine when held-back entries are applied |
| `IndexProvider.LexiconIndexProvider.Reset` | backend/python_services/infrastructure/nlp/index_provider.py:65-69 | invalidation drops the snapshot and everything held back |
| `SyncQueue.StepKeeps` | backend/python_services/core/domain/services/sync_queue.py:62-180 | every step of every thread keeps the invariant: truthful counters, first-in-first-out order, one fate per job, nothing lost, truthful snapshots, sound shutdown flags |
| `SyncQueue.Conservation` | backend/python_services/core/domain/services/sync_queue.py:62-180 | over every interleaving of producers, workers and shutdown calls: depth counter = FIFO length <= maximum; accepted = queued + in flight + done + cancelled; jobs leave in order of acceptance, each claimed once or cancelled, never both, also when the handler raises |
| `SyncQueue.ClampsAreIdle` | backend/python_services/core/domain/services/sync_queue.py:148-180 | so the clamps at zero never act, the `queue.Empty` branches of claim and clear are never reached, and `task_done` never raises |
| `SyncQueue.IdleIsTruthful` | backend/python_services/core/domain/services/sync_queue.py:140-146 | whenever a snapshot says idle, every job accepted before it is done or cancelled; a worker's snapshot stays true while it is held |
| `SyncQueue.QuietIsForGood` | backend/python_services/core/domain/services/sync_queue.py:62-71 | once stop is set and no enqueue is between its test and its unlock, no run accepts a job, raises the depth or ends idleness |
| `SyncQueue.ReportIsSound` | backend/python_services/core/domain/services/sync_queue.py:81-111 | when a shutdown report says idle, every job ever accepted is finished and the queue stays idle whatever happens later |
| `SyncQueue.DrainMayStrand` | backend/python_services/core/domain/services/sync_queue.py:123-131 | the run in which a drained shutdown leaves an accepted job in the queue: the worker exits on a snapshot older than the job |
| `SyncQueue.StrandedIffAcceptedLate` | backend/python_services/core/domain/services/sync_queue.py:81-131 | with any number of workers and any shutdown calls, once all workers have left, a job is left behind if and only if it was accepted after the latest of their last snapshots and no shutdown has cancelled it; every earlier job is finished and no later one is ever handled |
| `SyncQueue.TimelyExitStrandsNothing` | backend/python_services/core/domain/services/sync_queue.py:123-131 | with any number of workers, an exit on a snapshot that no acceptance has overtaken leaves a queue that is idle for good, every accepted job finished |
| `SyncQueue.AtomicExitStrandsNothing` | backend/python_services/core/domain/services/sync_queue.py:124-127 | with snapshot and stop test as one locked step, once a worker has left, every accepted job is finished and no other will be accepted |
| `SyncQueue.AcceptedWhenRoom` | backend/python_services/core/domain/services/sync_queue.py:62-71 | in every reachable state an enqueue that has passed its test is accepted if and only if the FIFO has fewer jobs than the maximum, its job then being the last; the test refuses exactly after stop |
| `SyncQueue.ClaimTakesOldest` | backend/python_services/core/domain/services/sync_queue.py:148-161 | in every reachable state a claiming worker gets the oldest queued job, and none exactly when there is none |
| `SyncQueue.WorkerCanGoOn` | backend/python_services/core/domain/services/sync_queue.py:123-138 | no worker is ever stuck: in every reachable state a worker with a job can end it, its handler returning or raising, and one about to look at the queue can empty it alone, every queued job ending as done |
| `SyncQueue.ThreadsStay` | backend/python_services/core/domain/services/sync_queue.py:81-89 | in every reachable state the workers asked for, at least one, and all shutdown calls are there, and a call drains or cancels as it was asked to |
| `SyncQueue.ReportTells` | backend/python_services/core/domain/services/sync_queue.py:96-106 | a report says idle exactly when no job is queued and no worker holds one, and gives the numbers of queued jobs and of jobs held at its moment; the workers counted as alive are those that have not left |
| `SyncQueue.WaitEnds` | backend/python_services/core/domain/services/sync_queue.py:113-121 | a waiting call goes on when the queue is idle or its time is over, and says which |
| `SyncQueue.ShutdownCancels` | backend/python_services/core/domain/services/sync_queue.py:81-89 | a cancelling shutdown run without interruption sets stop, cancels every queued job and no other, and counts them |
| `SyncQueue.ShutdownDrains` | backend/python_services/core/domain/services/sync_queue.py:81-89 | a draining shutdown sets stop and waits, and takes no job out of the queue |
| `SyncQueue.AsyncSyncQueue.Enqueue` | backend/python_services/core/domain/services/sync_queue.py:62-71 | a job is accepted if and only if stop is not set and the queue has fewer jobs than its maximum; it is then the last one in the queue, and a refused one changes nothing; the depth counter stays the length of the bounded FIFO |
| `SyncQueue.AsyncSyncQueue.ClaimNextJob` | backend/python_services/core/domain/services/sync_queue.py:148-161 | the lock section takes the oldest job and moves one unit from the depth to the in-flight counter; on a queue with truthful counters it answers with a job exactly when there is one, and keeps them truthful |
| `SyncQueue.AsyncSyncQueue.SnapshotState` | backend/python_services/core/domain/services/sync_queue.py:140-146 | the depth reported is the length of the FIFO, and the queue is idle exactly when both counters are zero |
| `SyncQueue.AsyncSyncQueue.ClearQueuedJobs` | backend/python_services/core/domain/services/sync_queue.py:167-180 | run alone, it cancels exactly the queued jobs, reports their number and keeps the counters truthful |
| `JobQueue.ApplyKeepsOrder` | backend/services/api-gateway/src/jobs.ts:31-78 | each operation keeps delivery in order, queue and waiters never both non-empty, and all calls answered once the job is removed |
| `JobQueue.RunIsOrdered` | backend/services/api-gateway/src/jobs.ts:31-78 | after any sequence of pushes, calls and cleanups the k-th answered call got the k-th pushed event, and cleanup has answered all remaining calls with null |
| `JobQueue.RemovedAnswersNull` | backend/services/api-gateway/src/jobs.ts:51-55 | a removed job stays removed, takes no event, and answers every later call with null |
| `JobQueue.JobBoard.CreateJob` | backend/services/api-gateway/src/jobs.ts:31-36 | a new job begins empty with a timer on its key; the other jobs are untouched |
| `JobQueue.JobBoard.PushJobEvent` | backend/services/api-gateway/src/jobs.ts:38-49 | the maps follow the ordered history of the one job, and jobs and timers stay on the same keys |
| `JobQueue.JobBoard.NextJobEvent` | backend/services/api-gateway/src/jobs.ts:51-62 | for every id: the call gets the next number of its job and the maps follow the job's history; for an id that was removed, or that no job ever had, it is answered with null |
| `JobQueue.JobBoard.CleanupJobById` | backend/services/api-gateway/src/jobs.ts:64-78 | job and timer are gone, every waiting call is answered with null, other jobs are untouched |
| `ParsePipeline.Produce` | backend/services/api-gateway/src/app.ts:58-164 | the producer pushes exactly its emission onto its own job, whatever the two services answer; StreamGrammar spells that emission out |
| `ParsePipeline.RunKeeps` | backend/services/api-gateway/src/app.ts:476-502 | in every interleaving of producer, consumer and expiry timer, the consumer has written a prefix of what was pushed and is at most one call ahead |
| `ParsePipeline.WritesEmission` | backend/services/api-gateway/src/app.ts:476-502 | on a job that does not expire, the ended consumer has written exactly the emission up to its first terminal event, whatever the interleaving |
| `ParsePipeline.ExpiryEndsStream` | backend/services/api-gateway/src/app.ts:483-487 | on a job that expires it has still written pushed events in order, and may end with the not-found frame, only then |
| `ParsePipeline.ExpiryAnswers` | backend/services/api-gateway/src/jobs.ts:64-78 | when the timer fires, the job is gone, nothing is queued, and a waiting call is answered at once |
| `ParsePipeline.ConsumerNeverStarves` | backend/services/api-gateway/src/app.ts:484-492 | once everything is pushed, a waiting consumer's call is answered |
| `ParsePipeline.StreamGrammar` | backend/services/api-gateway/src/app.ts:62-164 | the written stream is progress, error, or progress, nlp stage, at most one llm stage, result, done; a failed llm call still gives the result; done is missing exactly when the payload's own `type` makes the result terminal |
| `ParsePipeline.ClientReadsEmission` | backend/services/api-gateway/src/app.ts:476-502 | end to end: for every plan, interleaving without expiry and chunking, the client of an ended stream reads exactly the emission up to its first terminal event |
| `SseFrames.DrainConcat` | backend/services/shared/src/legacy.ts:81-90 | draining may stop anywhere: what is left in the buffer carries all that later text needs |
| `SseFrames.ParseSseEvents` | backend/services/shared/src/legacy.ts:70-108 | the events depend only on the concatenation of the chunks, not on where it is cut |
| `SseFrames.FrameYields` | backend/services/shared/src/legacy.ts:91-103 | a frame yields one event exactly when it has a data line; text that does not parse yields its error event |
| `SseFrames.FrameInWords` | backend/services/shared/src/legacy.ts:91-103 | a frame of several lines without a line that begins with `data:` gives no event; otherwise what stands behind those prefixes, trimmed and joined line by line, is parsed, and its event or the error event is given |
| `SseFrames.FramesRoundTrip` | backend/services/api-gateway/src/app.ts:491-491 | the reader gives back exactly the events whose frames were written, and keeps nothing back |
| `SseFrames.ChunkedRoundTrip` | backend/services/shared/src/legacy.ts:70-108 | the same under any chunking of the written text (section 9.2 of the WHATWG HTML Standard, LF and `data:` lines only) |
| `SseFrames.CutStreamGivesPrefix` | backend/services/shared/src/legacy.ts:70-108 | a stream that breaks off has given a prefix of the events |
| `Overlaps.DedupeOverlaps` | backend/python_services/core/domain/services/mwe_detector.py:313-341 | the loop over intervals keeps the candidates that the rank-ordered greedy choice keeps, in text order |
| `Overlaps.DedupeIsMaximalCover` | backend/python_services/core/domain/services/mwe_detector.py:313-341 | the output is a sub-multiset of the candidates with pairwise disjoint token intervals, sorted by span; every candidate left out meets a kept one of equal or higher rank |
| `Overlaps.DedupeInWords` | backend/python_services/core/domain/services/mwe_detector.py:313-341 | a dropped candidate shares a token with a kept one that ranks at least as high: longer, or as long and boosted if the dropped one is, and so on through score, idiom and separability |
| `Overlaps.DedupeIsIdempotent` | backend/python_services/core/domain/services/mwe_detector.py:313-341 | resolving a resolved list changes nothing, for all candidates (no assumption on their offsets is needed) |
| `Sorting.StableSortIsStable` | backend/python_services/core/domain/services/mwe_detector.py:317-341 | elements that compare equal keep their order |
| `Sorting.ClassesDetermine` | backend/python_services/core/domain/services/mwe_detector.py:317-341 | a sorted list is determined by the order within its classes of equal elements |
| `MweDetection.OnceIs` | backend/python_services/core/domain/services/mwe_detector.py:146-150 | the marker set keeps the first candidate of each expression and interval, and only repeats are dropped |
| `MweDetection.DetectContiguous` | backend/python_services/core/domain/services/mwe_detector.py:103-151 | everything found is a phrase stored for the words or for the lemmas of its interval, and every such phrase that occurs is found, once per expression and interval |
| `MweDetection.FindParticleIndex` | backend/python_services/core/domain/services/mwe_detector.py:248-276 | the first fitting child of the verb; if there is none, the nearest fitting and properly linked token; otherwise nothing, and only then |
| `MweDetection.ParticleIsUnique` | backend/python_services/core/domain/services/mwe_detector.py:248-276 | at most one answer meets that description, and it lies behind the verb, within the gap, and is the particle |
| `MweDetection.JudgeIs` | backend/python_services/core/domain/services/mwe_detector.py:186-240 | an expression passes exactly when it is separable, the gap is within its own limit (or the default when it has none), and the particle is linked as one or ambiguously or some score is positive; the candidate is that of the verb and its particle, boosted exactly for an ambiguous link with a score at its threshold, the transformer score naming the source first |
| `MweDetection.FoundIsPassing` | backend/python_services/core/domain/services/mwe_detector.py:153-246 | in a table that keeps every expression under its own id, a separable expression that is found between two tokens is stored for the verb at the one with the particle found for it at the other, and passes in those words |
| `MweDetection.PassingIsFound` | backend/python_services/core/domain/services/mwe_detector.py:153-246 | and every verb with the particle found for it has a candidate with its marker for every stored expression that passes |
| `MweDetection.DetectSeparable` | backend/python_services/core/domain/services/mwe_detector.py:153-246 | everything found is a verb of the index with the particle found for it and an expression that passes the gap and evidence checks, for arbitrary scorers, and every such verb is found, once per expression and interval |
| `MweDetection.Detect` | backend/python_services/core/domain/services/mwe_detector.py:69-101 | the result is disjoint and in text order, holds only hits, and for every hit of either kind has a candidate that meets it and ranks at least as high |
| `UnitCodes.ToAlphaIndex` | backend/services/assignments-service/src/postgres_repository.ts:480-488 | the do-while loop spells the code of the index, negative indices counting as 0 |
| `UnitCodes.AlphaRoundTrip` | backend/services/assignments-service/src/postgres_repository.ts:480-488 | the code reads back as the index |
| `UnitCodes.AlphaCoversAll` | backend/services/assignments-service/src/postgres_repository.ts:480-488 | every non-empty string of A to Z is the code of some index: with the round trip, a bijection |
| `UnitCodes.AlphaIsMonotone` | backend/services/assignments-service/src/postgres_repository.ts:480-488 | greater indices have later codes: longer, or as long and greater at the first difference |
| `UnitCodes.UnitCodeInjective` | backend/services/assignments-service/src/postgres_repository.ts:472-474 | two units with the same code have the same number, padding included |
| `UnitCodes.SubunitCodeInjective` | backend/services/assignments-service/src/postgres_repository.ts:476-478 | a subunit code determines the unit number and the index |
| `UnitCodes.CodesInWords` | backend/services/assignments-service/src/postgres_repository.ts:472-478 | a unit code is `Unit` and the number, with a zero in front of a single digit; a subunit code is the number and the letters of its index; numbers below 1 count as 1 |
| `UnitStore.CreateIsSound` | backend/services/assignments-service/src/postgres_repository.ts:57-91 | creating a unit under the next number keeps the store sound |
| `UnitStore.UpdateIsSound` | backend/services/assignments-service/src/postgres_repository.ts:160-199 | replacing a unit's subunits keeps the store sound |
| `UnitStore.DeleteIsSound` | backend/services/assignments-service/src/postgres_repository.ts:201-228 | deleting units with the cascade keeps the store sound: no orphan rows |
| `UnitStore.CodesAreDistinct` | backend/services/assignments-service/src/postgres_repository.ts:57-91 | unit numbers, unit codes and all subunit codes of the store are distinct |
| `UnitStore.CountsMatchRows` | backend/services/assignments-service/src/postgres_repository.ts:356-379 | the stored count of a unit is the number of its rows |
| `UnitStore.CreateShows` | backend/services/assignments-service/src/postgres_repository.ts:57-91 | the new unit shows its contents in order and every other unit shows what it did |
| `UnitStore.UpdateShows` | backend/services/assignments-service/src/postgres_repository.ts:160-199 | the unit shows its new contents and every other unit shows what it did |
| `UnitStore.DeleteShows` | backend/services/assignments-service/src/postgres_repository.ts:201-228 | units not deleted show what they did |
| `UnitStore.NormalizeInWords` | backend/services/assignments-service/src/postgres_repository.ts:466-470 | the contents are the drafts trimmed, in their order, and only blank drafts are left out |
| `UnitStore.SafeIdsInWords` | backend/services/assignments-service/src/postgres_repository.ts:213-213 | the ids that count are the positive ones, each where it is given first |
| `UnitStore.FilterInWords` | backend/services/assignments-service/src/postgres_repository.ts:224-227 | deleted and not-found ids keep the order of the request |
| `UnitStore.RunIsSound` | backend/services/assignments-service/src/postgres_repository.ts:57-228 | in every run of create, update, delete and bulk delete, at every moment: numbers and codes distinct, positions exactly 0 to count - 1, counts equal to rows, no orphan |
| `UnitStore.AssignmentsRepository.GetNextUnitNumber` | backend/services/assignments-service/src/postgres_repository.ts:381-386 | one more than the greatest number in use, or 1 |
| `UnitStore.AssignmentsRepository.InsertSubunits` | backend/services/assignments-service/src/postgres_repository.ts:356-379 | adds one row for each content, with its position and the code of that position |
| `UnitStore.AssignmentsRepository.CreateUnit` | backend/services/assignments-service/src/postgres_repository.ts:57-91 | without a non-blank draft an error and no change; otherwise the next unit with the trimmed drafts |
| `UnitStore.AssignmentsRepository.UpdateAssignment` | backend/services/assignments-service/src/postgres_repository.ts:160-199 | the error and not-found cases change nothing; otherwise the unit's rows are replaced |
| `UnitStore.AssignmentsRepository.DeleteAssignment` | backend/services/assignments-service/src/postgres_repository.ts:201-209 | tells whether the unit existed, and removes it with its rows |
| `UnitStore.AssignmentsRepository.BulkDelete` | backend/services/assignments-service/src/postgres_repository.ts:211-228 | splits the distinct positive ids in order into deleted and not found, and removes the former with their rows |
| `CandidateSync.EnsureCategory` | backend/python_services/core/use_cases/parse_sync_candidate_resolver.py:396-415 | a usable category is in the set afterwards even when creating it fails, and no category is lost |
| `CandidateSync.CleanSetIs` | backend/python_services/core/use_cases/parse_sync_candidate_resolver.py:404-408 | what a creation brings in are the trimmed items of its answer, blank ones left out |
| `CandidateSync.SelectIsFresh` | backend/python_services/core/use_cases/parse_sync_candidate_resolver.py:94-130 | the added terms have no repeats, were unknown before the round, and are all the unknown ones |
| `CandidateSync.SelectSplits` | backend/python_services/core/use_cases/parse_sync_candidate_resolver.py:94-108 | added and already-existing terms together are the processed candidates, each as often |
| `CandidateSync.SelectInOrder` | backend/python_services/core/use_cases/parse_sync_candidate_resolver.py:94-128 | the added terms stand in the order of the candidates, each where the list has it first and the sets lack it; the existing ones are all the other candidates, in order |
| `CandidateSync.RerunAddsNothing` | backend/python_services/core/use_cases/parse_sync_candidate_resolver.py:94-130 | running a round again over what it processed adds nothing |
| `CandidateSync.PlaceExplains` | backend/python_services/core/use_cases/parse_sync_candidate_resolver.py:105-130 | each added term is inserted, in order, under its trimmed suggestion when that is usable at that moment and under the fallback otherwise; the category exists by the end |
| `CandidateSync.PlaceInWords` | backend/python_services/core/use_cases/parse_sync_candidate_resolver.py:105-130 | from the table's own entry for the term: its trimmed text when that is a category at hand or one created on demand, and the fallback otherwise; without an entry the fallback itself is taken as the entry |
| `CandidateSync.AtHandGrows` | backend/python_services/core/use_cases/parse_sync_candidate_resolver.py:380-415 | the categories at hand are the given ones, then each chosen one, and what its creation on demand brings in |
| `CandidateSync.ReviewsExplain` | backend/python_services/core/use_cases/parse_sync_candidate_resolver.py:114-121 | review is asked for exactly the added terms whose own suggestion could not be used |
| `CandidateSync.ReviewsInWords` | backend/python_services/core/use_cases/parse_sync_candidate_resolver.py:114-121 | from the table's own entry: review is asked for exactly the terms with an entry other than the fallback that is blank or names a category neither at hand nor created on demand |
| `CandidateSync.SharedTerms.SyncCandidates` | backend/python_services/core/use_cases/parse_sync_candidate_resolver.py:70-130 | one round on the shared sets: the processed prefix splits in order into added and already existing, and afterwards the sets hold in addition exactly its terms, those with a space in the one and those without in the other |
| `CandidateSync.RoundsCompose` | backend/python_services/core/use_cases/parse_and_sync.py:224-296 | a round after a round does what one round over both lists does, by what the first left in the shared sets |
| `CandidateSync.RoundsAreDisjoint` | backend/python_services/core/use_cases/parse_and_sync.py:224-383 | the lists that three rounds add, one after the other, hold no term twice, so `unique` leaves them as they are; together they are what one round over all three candidate lists adds |
| `CandidateSync.SyncRounds` | backend/python_services/core/use_cases/parse_and_sync.py:224-383 | in direct mode each round adds, in order, the candidates unknown by then, for what the round before it left known; the answer is the three lists one after the other, without repeats and unchanged by the final `unique` |
| `Sorting.UniqueOfDistinct` | backend/python_services/core/domain/services/text_processor.py:147-155 | `unique` leaves a list without repeats as it is |
| `Sorting.UniqueInOrder` | backend/python_services/core/domain/services/text_processor.py:147-155 | `unique` keeps each item where it appears first |
| `CandidateSync.CanonicalizeCandidateCategories` | backend/python_services/core/use_cases/parse_sync_candidate_resolver.py:335-348 | the loop builds the canonicalised table, form by form |
| `CandidateSync.FirstCategoryStands` | backend/python_services/core/use_cases/parse_sync_candidate_resolver.py:335-348 | the entry of a key is the trimmed category, or the fallback, of the first candidate with that canonical form |
| `CandidateSync.CanonicalTableKeys` | backend/python_services/core/use_cases/parse_sync_candidate_resolver.py:335-348 | the keys of that table are exactly the non-empty canonical forms of the candidates |
| `CandidateSync.PartitionSyncCandidates` | backend/python_services/core/use_cases/parse_sync_candidate_resolver.py:183-214 | the accepted and the rejected list are the distinct canonical forms on each side, in order of first appearance, by the rule on form and suggestion; no form is on both when the entries of the table agree |
| `CandidateSync.FormsAre` | backend/python_services/core/use_cases/parse_sync_candidate_resolver.py:194-212 | a form is on a side exactly when it is non-empty and some candidate has it with that admission |
| `CandidateSync.SuggestedInWords` | backend/python_services/core/use_cases/parse_sync_candidate_resolver.py:195-206 | an entry of the candidate's own counts before that of its canonical form, and an empty entry is none |
| `CandidateSync.AgreementSplits` | backend/python_services/core/use_cases/parse_sync_candidate_resolver.py:195-212 | when an entry of the table always leads to the verdict that the entry of its canonical form leads to, no form is on both lists |
| `CandidateSync.SplitsIff` | backend/python_services/core/use_cases/parse_sync_candidate_resolver.py:195-212 | the two lists are disjoint for every candidate list if and only if the entries of the table agree in that sense; canonical forms ignore a blank in front, as the source's do |
| `CandidateSync.RawTableFails` | backend/python_services/core/use_cases/parse_sync_candidate_resolver.py:195-212 | otherwise they need not be: with an entry for `In` alone, the candidates `In` and `in` put the form `in` on both lists |
| `CandidateSync.CallSitesSplit` | backend/python_services/core/use_cases/parse_and_sync.py:198-203 | every call site canonicalises its table first, and a suggestion counts only for blocked single words; hence the entries agree and the two lists are disjoint |
| `LexiconStore.InsertDraftAdds` | backend/services/lexicon-service/src/postgres_repository.ts:164-190 | a draft becomes a row exactly when its (category, normalized) is new; the key is there afterwards in either case and no row is lost |
| `LexiconStore.InsertAllAdds` | backend/services/lexicon-service/src/postgres_repository.ts:195-242 | the inserted count is the growth of the table, every draft's key is there afterwards, and no row is lost |
| `LexiconStore.AddInWords` | backend/services/lexicon-service/src/postgres_repository.ts:157-193 | a new row is pending review when it was added automatically and approved otherwise, without review marks, its text trimmed and its category the fallback when blank; no other row changes, and only a blank value is an error |
| `LexiconStore.AddManyInWords` | backend/services/lexicon-service/src/postgres_repository.ts:195-242 | each new row of a bulk addition is that of one of the requested entries, in the same words |
| `LexiconStore.UpdateIsSound` | backend/services/lexicon-service/src/postgres_repository.ts:244-298 | the UNIQUE check of an update is what keeps the keys unique |
| `LexiconStore.UpdateShows` | backend/services/lexicon-service/src/postgres_repository.ts:244-298 | a failed update changes nothing; a successful one shows the request in its row only, with the status that the request names, keeps an earlier review mark, and leaves no other row with its key |
| `LexiconStore.UpdateInWords` | backend/services/lexicon-service/src/postgres_repository.ts:244-298 | in the words of the request: `approved`, `rejected` and `pending_review`, trimmed and in any case, give the row that status, and any other text is an invalid status that changes nothing |
| `LexiconStore.DeleteShows` | backend/services/lexicon-service/src/postgres_repository.ts:300-317 | exactly the rows named by positive ids are gone, their number is the answer, and the version rises exactly when there are some; without a positive id it is an error |
| `LexiconStore.StatusShows` | backend/services/lexicon-service/src/postgres_repository.ts:319-361 | exactly the rows named by positive ids get the status; no text, category or source changes |
| `LexiconStore.StatusInWords` | backend/services/lexicon-service/src/postgres_repository.ts:319-361 | in the words of the request: every addressed row is approved, rejected or pending afterwards as the text says, and any other text is an invalid status that changes nothing |
| `LexiconStore.StepIsSound` | backend/services/lexicon-service/src/postgres_repository.ts:157-399 | every mutation keeps (category, normalized) unique, raises the version by at most one, and raises it whenever the entries change |
| `LexiconStore.RunIsSound` | backend/services/lexicon-service/src/postgres_repository.ts:157-399 | in every run: keys unique, ids from the sequence, no entry in an unlisted category |
| `LexiconStore.ApprovalIsReviewed` | backend/services/lexicon-service/src/postgres_repository.ts:272-289 | in every run an entry that was added automatically is approved only with its review marks set, and a pending one has none |
| `LexiconStore.VersionTells` | backend/services/lexicon-service/src/postgres_repository.ts:785-796 | over a run the version never falls, and two moments with the same version have the same entries, as has every moment between |
| `LexiconStore.PartIsUnique` | backend/services/lexicon-service/src/postgres_repository.ts:441-465 | the entries fix the index, up to the order inside a category list |
| `LexiconStore.SameVersionSameIndex` | backend/services/lexicon-service/src/postgres_repository.ts:441-472 | two answers of `buildIndex` in a run at the same version are the same answer, failures included, and versions do not fall |
| `LexiconStore.ListIsTable` | backend/services/lexicon-service/src/postgres_repository.ts:401-417 | in a run the listed categories are the category table and the fallback |
| `LexiconStore.SyncIsSound` | backend/services/lexicon-service/src/postgres_repository.ts:662-698 | the insertion of a row synchronisation, which has no conflict clause, never meets an existing key |
| `LexiconStore.SyncInWords` | backend/services/lexicon-service/src/postgres_repository.ts:637-708 | which answer a row gets, and the row it adds: automatic, pending review, without marks, under the category that its first usable hint names when that exists or may be created, and else the fallback |
| `LexiconStore.CandidateIsFirstProbe` | backend/services/lexicon-service/src/postgres_repository.ts:942-953 | the term is the first of the normalized text, the token and the lemma that may be added (a dash may not), and when none may, the first that was given at all |
| `LexiconStore.FirstHintIsFirst` | backend/services/lexicon-service/src/postgres_repository.ts:932-940 | the hint is the first item of the comma-separated list that is neither blank nor a dash, and empty when there is none |
| `LexiconStore.SyncAgain` | backend/services/lexicon-service/src/postgres_repository.ts:637-708 | sending the same row again changes nothing at all, and answers `already_exists` (or rejected as before) with the same term and category |
| `LexiconStore.LexiconRepository.AddEntry` | backend/services/lexicon-service/src/postgres_repository.ts:157-193 | the method follows the step, error case included; keys stay unique, and the version moves with the entries; a new row shows the request |
| `LexiconStore.LexiconRepository.AddEntries` | backend/services/lexicon-service/src/postgres_repository.ts:195-242 | the insertion loop follows the step, with one version bump at most; keys stay unique, and the version moves with the entries; every new row is that of a requested entry |
| `LexiconStore.LexiconRepository.UpdateEntry` | backend/services/lexicon-service/src/postgres_repository.ts:244-298 | the checks in the source's order, each leaving the store unchanged; keys stay unique, and the version moves with the entries; the row shows the status that the request names |
| `LexiconStore.LexiconRepository.DeleteEntries` | backend/services/lexicon-service/src/postgres_repository.ts:300-317 | the method follows the step; keys stay unique, and the version moves with the entries; the answer is the number of rows gone |
| `LexiconStore.LexiconRepository.BulkUpdateStatus` | backend/services/lexicon-service/src/postgres_repository.ts:319-361 | the row-by-row loop over the ids, in any order, follows the step; keys stay unique, and the version moves with the entries; the rows show the status that the request names |
| `LexiconStore.LexiconRepository.SyncRow` | backend/services/lexicon-service/src/postgres_repository.ts:637-708 | the method follows the step in all branches; keys stay unique although the insertion has no conflict clause, and the version moves with the entries; the answer and the added row are those of the request |
| `LexiconStore.LexiconRepository.BuildIndex` | backend/services/lexicon-service/src/postgres_repository.ts:441-472 | whatever the order of the rows, it fails if and only if a listed single word names an inherited member; otherwise every category stands under a key as often as entries that are not rejected put it there |
| `LexiconStore.IndexListsEntry` | backend/services/lexicon-service/src/postgres_repository.ts:450-465 | an entry that is pending or approved, with a category and a text that is not blank in lower case either, is listed under its lower-cased words: in the single-word index, or in the multi-word one under the words joined by single spaces |
| `LexiconStore.IndexListsOnly` | backend/services/lexicon-service/src/postgres_repository.ts:450-465 | and whatever category the index lists under a key comes from such an entry |
| `LexiconStore.InheritedInLowerCase` | backend/services/lexicon-service/src/postgres_repository.ts:455-460 | among lower-cased words, `constructor` and `__proto__` are the only names of inherited members |
| `LexiconStore.ConstructorBlocks` | backend/services/lexicon-service/src/postgres_repository.ts:448-462 | the failure is reached through the repository itself: adding the word `constructor` succeeds, and `buildIndex` then fails |
| `SheetTitles.SuffixShows` | backend/python_services/infrastructure/adapters/http_export_service.py:116-118 | different suffixes give different titles, whatever the cut leaves of the base |
| `SheetTitles.TitleFits` | backend/python_services/infrastructure/adapters/http_export_service.py:111-121 | a title is never empty, and has at most 31 characters exactly while its suffix text has at most 30 |
| `SheetTitles.BaseInWords` | backend/python_services/infrastructure/adapters/http_export_service.py:112-113 | the base is the trimmed name without the apostrophes at its ends, with underscores for the seven characters that are not allowed; `Sheet` when nothing is left |
| `SheetTitles.TitleInWords` | backend/python_services/infrastructure/adapters/http_export_service.py:114-118 | the first title is the base up to 31 characters; a later one is a beginning of the base and the suffix, of 31 characters unless the base is too short for that or the number too long |
| `SheetTitles.TitleIsPlain` | backend/python_services/infrastructure/adapters/http_export_service.py:112-118 | no forbidden character, no apostrophe in front; one at the end exactly when the cut base is the title and the cut falls behind one |
| `SheetTitles.TriesAreFew` | backend/python_services/infrastructure/adapters/http_export_service.py:115-119 | at most one more title is tried than are in use, and at most two more when the cut base comes up again among the suffixed titles |
| `SheetTitles.TriesBoundIff` | backend/python_services/infrastructure/adapters/http_export_service.py:114-119 | the smaller bound holds for every set of used titles if and only if the first 31 characters of the base end in no suffix |
| `SheetTitles.RecursWhen` | backend/python_services/infrastructure/adapters/http_export_service.py:114-118 | it comes up again exactly when the first 31 characters of the base end in that suffix |
| `SheetTitles.RecurringBase` | backend/python_services/infrastructure/adapters/http_export_service.py:114-118 | then the smaller bound fails: a base of 31 characters ending in `_2`, with only itself in use, takes three tries |
| `SheetTitles.ExcelSheetTitle` | backend/python_services/infrastructure/adapters/http_export_service.py:111-121 | the loop ends for every finite set of used titles and returns the first free title |
| `SheetTitles.RenderSheets` | backend/python_services/infrastructure/adapters/http_export_service.py:51-85 | one sheet per table, or the sheet `empty`, each with the first title free after the sheets before it; tables without columns add no rows to the total |
| `SheetTitles.RowTotalIsSum` | backend/python_services/infrastructure/adapters/http_export_service.py:67-83 | the row total is the sum of the rows of the tables that have columns |
| `SheetTitles.SheetsAreProper` | backend/python_services/infrastructure/adapters/http_export_service.py:51-64 | over a whole export the titles are non-empty, pairwise distinct and without forbidden characters, and at most 31 characters long while the number of sheets plus one has at most 29 digits |

## Left out

- Tokenising by regular expression, case folding and Unicode: tokens are non-empty strings without blanks (space, tab, carriage return, line feed), in one case; lower-casing in the lexicon store is an arbitrary function.
- JSON and UTF-8: printing and parsing are an inverse pair whose text is one line without outer blanks; text that does not parse gives the error event.
- Scan.ScanAssignment: leaves out titles, texts, durations and example sentences; coverage is over reals, with any rounding, and locale comparison is any total preorder.
- Scan.CollectMissingWords: leaves out the example sentence of each word.
- Category tuples of the trie and the index provider are sets (the source sorts them and removes repeats); the candidate hash of a cached snapshot is not modelled.
- The joins of `shutdown` end at any moment, by exit or timeout; logging and the handler's own work do not touch the queue; fairness and time are not modelled.
- SyncQueue.AsyncSyncQueue.ClearQueuedJobs: is stated for the loop without other threads between its turns; the state machine interleaves the turns.
- UUIDs: job ids are taken as never reused. The timer of a job is a step that may happen at any time.
- The legacy branches of the gateway, HTTP proxying, result contracts and the language model client.
- The canonical form of a multi-word expression, its surface text and its sentence are not part of a detected candidate; semantic scorers are arbitrary functions into the reals, so an exception in a scorer is a scorer that answers 0.
- MweDetection.Detect: the statement that no hit goes unrepresented is for a table that keeps every expression under its own id, and for phrases of at least one word, because an empty phrase has an empty interval.
- IndexProvider.SnapshotIsRebuild: is about a lexicon that entries are only added to, each write being announced in the same step; a deletion in the lexicon is seen only by a rebuild.
- Each store operation is one atomic step; concurrent transactions, time stamps, titles, search, statistics and snapshot import are not modelled.
- LexiconStore.SameVersionSameIndex: compares category lists as multisets, since the query fixes no order; confidence, request ids and usage examples of an entry are not modelled.
- The multi-word expression tables of the lexicon service, the SQLite repositories and the schema migrations.
- CandidateSync.SharedTerms.SyncCandidates: the timeout is the number of processed candidates; writing the collected rows to the lexicon service and the queued (not direct) mode are left out.
- The renaming of sheets that the workbook library does by itself when titles differ only in case, cell contents and file output.
- The Python diff and everything built on foreign libraries (spaCy, WordNet, sentence embeddings, difflib).
- Suggestion heuristics and verb-head normalising: lookup tables without a law.
