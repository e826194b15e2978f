# Verified model of the OTM backend and its transcription scorer

The repository is an assistant backend (TypeScript, under `backend/`) with a word-error-rate scorer
(Python, under `tools/wer/`). This project models the parts whose correctness depends on every
input, every interleaving or every failure, and proves what they guarantee.

JavaScript strings are sequences of 16-bit code units (`Text`), so lone surrogates, quotes and line
breaks are all covered. Statements of a database are atomic. A database call that writes, or an
approval request sent, may fail at any call, before its effect or after it (`Faults`); a read or a
delivery may fail at any call. Clocks, drawn ids and digests are parameters.

## What is modelled

- `EditDistance`, `NumberWords`: the alignment table with its traceback and the number-word merger
  of the scorer. The table is least over all edit scripts, although a match takes the diagonal
  without a minimum; the traceback exhibits a script with the reported counts; the total is a metric.
- `SqlSplitter`, `SqlTokens`, `MigrationFiles`, `MigrationRunner`: the four-mode statement splitter,
  proved against SQL text as a list of tokens, the ordering of the migration files and the
  transactional runner, over a connection that can fail before or after the effect of any call, drop
  its transaction, or die.
- `ApprovalGate`, `ApprovalCourse`, `ApprovalStatus`, `ApprovalNumbers`, `PurchaseOrders`: any number
  of gated tool calls in flight over an emitter with listeners, timers, decisions and writes; the
  course of one call among the others; the PO counter, the PO number and the totals.
- `Json`, `ContentHash`: JSON.stringify and JSON.parse, proved inverse, and the canonical text that
  is hashed, down to its UTF-8 bytes.
- `IsoTime`, `Idempotency`, `DedupRules`: timestamps as text, the two idempotency gates as
  interleaved statements, and the pure rules the gates have to meet.
- `CommsLog`: the row mapper, the assembler and the inserter of the message log.
- `SessionCache`, `SessionLog`: the cached session state and its validating reader; the log, its
  replay and the opening of sessions.
- `Csv`, `Sms`, `PromptTrim`: CSV output against a reader for RFC 4180, SMS segmentation and
  delivery, and the token budget of a prompt.
- `Decimal`, `Faults`, `Sequences`, `Text`: numerals, the ways a call can fail, small facts on
  sequences, and the string library.

Source loops and classes are methods and classes here, each tied by its `ensures` to a function of
its inputs or of the old state; the results are lemmas on those functions.

## Where the code and its documentation part

The model follows the code. Each of these has a lemma that names the input and one that says
exactly when the promise holds.

- The SMS formatter promises segments of at most 1,600 characters (outputRouter.ts:119). A text with
  no sentence boundary is cut at 1,600 characters and then given an ellipsis: `Sms.LongWordOverruns`
  is the input, `Sms.LimitKeptIff` the exact condition on the cuts, and `Sms.WindowsDecide` what can
  be seen in the text without cutting it. Such a cut can fall inside a surrogate pair:
  `Sms.EmojiIsHalved`, `Sms.PairIsHalvedIff`. A blank text, and no other, is reported delivered to
  someone with nothing sent: `Sms.BlankTextIsDelivered`.
- Missing CSV cells are promised to be empty (sheetOutput.ts:54). A row is a plain object, so a
  header such as `constructor` reads an inherited property: `Csv.ConstructorColumn`. The twelve
  names it happens with: `Csv.EmptyCells`.
- The comms log always inserts rows without a provider message id (commsLogWriter/index.ts:24).
  With the provenance `provider_id` the table's CHECK refuses them: `CommsLog.NullIdStored`.
- A message found novel is meant to be stored. An empty provider message id is absent for the gate
  but an identity for the log, which drops the second message that carries one:
  `CommsLog.SecondEmptyIdIsDropped`. No other message found novel is dropped as a duplicate:
  `CommsLog.EmptyIdIsDropped`.
- Comparing timestamps as text is said to be correct for a uniform format
  (idempotencyChecker/pure.ts:17). Across the end of year 9999 it is not:
  `DedupRules.GateMissesAcrossYear10000`. `IsoTime.TextOrder` has the pairs of instants for which it
  is, and `DedupRules.GateExactClocks` the clocks at which the gate is right.
- The log is called the source of truth a replay rebuilds the state from (sessionPersistence.ts:3).
  Each reopening rewinds the replayed last interaction to the first opening:
  `SessionLog.MorningForgotten` is an instance, `SessionLog.ReopeningRewinds` the general case.
- PO sequences are promised strictly monotonic (poSequence.ts:11). At 2^53 the counter stops, and
  two orders are written under one number: `ApprovalNumbers.CappedOrdersCollide`,
  `ApprovalNumbers.SameNumberIffCapped`.
- UTF-8 encoding alone is not injective on JavaScript strings, so the claim that escaping makes the
  hashed text injective (contentHash.ts:19) needs JSON.stringify to escape lone surrogates, which it
  does: `ContentHash.Utf8IsNotInjective`, `ContentHash.HashedBytesIffSameContent`.
- The fabrication flags never fire on an empty reference, however much text was made up for it:
  `EditDistance.FlagMeaning`.

One failure the comments do not speak of: an INSERT of a key that takes effect and then reports an
error leaves the message stored and novel to nobody, every other decided check of it being a
duplicate. Once a check of a new provider message is decided, this is the only way none is novel:
`Idempotency.ExactlyOneNovel`, `Idempotency.LostIffFailedAfter`.

## Model

| member | source | states |
|---|---|---|
| EditDistance.NeighboursDifferByAtMostOne | tools/wer/score_wer.py:103-118 | Cells next to each other in a row or a column differ by at most one, which is why a match needs no minimum |
| EditDistance.CellIsLowerBound | tools/wer/score_wer.py:103-118 | No edit script turning the prefixes into each other is cheaper than the cell |
| EditDistance.TraceIsScript | tools/wer/score_wer.py:119-133 | The traceback is a script for the prefixes and costs exactly the cell |
| EditDistance.CellIsLeastCost | tools/wer/score_wer.py:103-133 | Each cell is the least cost over all scripts, attained by the traceback |
| EditDistance.FillTable | tools/wer/score_wer.py:103-118 | The in-place fill leaves every cell as specified |
| EditDistance.CountEdits | tools/wer/score_wer.py:119-133 | The walk back terminates with the counts of the traced script |
| EditDistance.LevenshteinSdi | tools/wer/score_wer.py:101-133 | S, D, I are the counts of a script no other script beats, and D - I is the difference in length |
| EditDistance.LengthBalance | tools/wer/score_wer.py:119-133 | Deletions less insertions of any script is the difference in length, which its cost is at least |
| EditDistance.DistanceIsSymmetric | tools/wer/score_wer.py:101-133 | The total is the same in both directions |
| EditDistance.ComposeEdits | tools/wer/score_wer.py:101-133 | Two scripts in sequence compose to one that costs no more than both |
| EditDistance.TriangleInequality | tools/wer/score_wer.py:101-133 | The total through a third list is never less |
| EditDistance.DistanceZeroIffEqual | tools/wer/score_wer.py:101-133 | The total is zero exactly on equal lists |
| EditDistance.DistanceBounds | tools/wer/score_wer.py:101-133 | The total lies between the difference of the lengths and the longer length |
| EditDistance.ScoreMeans | tools/wer/score_wer.py:155-161 | The figures are the quotients by the reference length, and each flag an exact condition on the counts |
| EditDistance.FlagMeaning | tools/wer/score_wer.py:151-161 | When each flag fires: the WER flag only on a longer hypothesis, the ratio flag only above WER 1/2; an empty reference scores zero and is never flagged |
| NumberWords.ReadPhrase | tools/wer/score_wer.py:54-87 | One round of the loop reads exactly the phrase at its position |
| NumberWords.MergeNumberWords | tools/wer/score_wer.py:49-88 | The loop computes the merge of the whole list |
| NumberWords.MergeLength | tools/wer/score_wer.py:49-88 | The output has between a quarter of the input's tokens and all of them |
| NumberWords.MergeIsIdempotent | tools/wer/score_wer.py:49-88 | Merging again changes nothing |
| NumberWords.MergeSplitsAt | tools/wer/score_wer.py:49-88 | Merging works on the two sides of an ordinary word separately |
| NumberWords.SeparatorsAreTheOrdinaryTokens | tools/wer/score_wer.py:49-88 | A token separates every two lists exactly when it is neither a number word nor "hundred" |
| NumberWords.SpelledNumberMerges | tools/wer/score_wer.py:56-84 | Every spelled number below 1000 becomes its decimal form |
| NumberWords.SentenceMerges | tools/wer/score_wer.py:49-88 | In a sentence of spelled numbers among ordinary words each becomes its decimal form and no other word changes |
| NumberWords.EnglishSpells | tools/wer/score_wer.py:35-46 | The word tables, listed out, spell the numbers the results above speak of |
| NumberWords.EnglishIsFresh | tools/wer/score_wer.py:35-71 | No decimal form is itself a number word |
| SqlSplitter.SplitSqlStatements | backend/src/db/migrationRunner.ts:82-129 | The character loop returns exactly the statements of the text |
| SqlSplitter.ScanAppend | backend/src/db/migrationRunner.ts:82-129 | Mode and content of a scan carry over from a text to its continuation |
| SqlSplitter.StatementsAreTrimmedSegments | backend/src/db/migrationRunner.ts:82-129 | The statements are the cut segments that hold more than white space and comments, trimmed |
| SqlSplitter.CutsAreTheFreeSemicolons | backend/src/db/migrationRunner.ts:76-129 | The segments rejoined rebuild the input, cut at exactly the semicolons outside quotes and comments |
| SqlSplitter.StatementsAreStatements | backend/src/db/migrationRunner.ts:82-129 | Each statement has content, no cut, trimmed ends, and all but the last leave no quote open |
| SqlSplitter.RejoinedListSplitsBack | backend/src/db/migrationRunner.ts:82-129 | Any list of such statements joined by a new line and a semicolon splits back to itself |
| SqlSplitter.SplittingIsStable | backend/src/db/migrationRunner.ts:82-129 | For every input each statement splits to itself and the rejoined list to the same list |
| SqlTokens.StatementsAreMeant | backend/src/db/migrationRunner.ts:76-129 | The statements of a list of tokens (quoted runs, line comments, semicolons, plain characters) are the groups between its semicolon tokens that hold a quoted run or a character neither white nor in a comment, trimmed |
| SqlTokens.GroupScan | backend/src/db/migrationRunner.ts:82-129 | Up to its first semicolon token a text has no cut, and it has content exactly if one of those tokens counts |
| SqlTokens.CutsAreSemicolonTokens | backend/src/db/migrationRunner.ts:76-117 | The cuts of any list of tokens are exactly its semicolon tokens |
| SqlTokens.SplitsAsMeant | backend/src/db/migrationRunner.ts:82-129 | Every text is such a list of tokens, and the splitter returns what they mean |
| MigrationFiles.FilenameIff | backend/src/db/migrationRunner.ts:59-73 | A name parses to a version and a name exactly when it is three digits, an underscore, a name of letters, digits and underscores, and .sql |
| MigrationFiles.SqlIff | backend/src/db/migrationRunner.ts:159-160 | An entry is taken for a migration exactly if it ends in .sql |
| MigrationFiles.VersionsFollowNames | backend/src/db/migrationRunner.ts:159-186 | Sorting the file names sorts the versions |
| MigrationFiles.AlreadySorted | backend/src/db/migrationRunner.ts:186-186 | On entries whose versions climb the sort by version changes nothing |
| MigrationFiles.ParseEntries | backend/src/db/migrationRunner.ts:158-170 | Every .sql entry is parsed in order, or the result is one that does not parse |
| MigrationFiles.FindDuplicate | backend/src/db/migrationRunner.ts:172-183 | Finds two entries of one version exactly when there are any |
| MigrationFiles.LoadMigrationsFromDir | backend/src/db/migrationRunner.ts:136-200 | Loads exactly the .sql files, versions strictly ascending, or names what prevents it |
| MigrationFiles.RunMigrationsFromDir | backend/src/db/migrationRunner.ts:219-308 | A load error leaves the database alone; otherwise the run is over the loaded files in order |
| MigrationRunner.SqliteClient.Run | backend/src/db/migrationRunner.ts:268-302 | What one database call may do to the connection under every fault |
| MigrationRunner.ApplyPending | backend/src/db/migrationRunner.ts:268-302 | One migration is applied whole with its record or not at all, under every fault |
| MigrationRunner.RunMigrations | backend/src/db/migrationRunner.ts:219-308 | Whatever fails, the committed database is that of a clean run over some first files; success means all of them, the report listing in order exactly the files not recorded before, which the tracker has gained; a drift or a failure names the file the run came to |
| MigrationRunner.RunsEveryStatement | backend/src/db/migrationRunner.ts:276-288 | A migration runs every one of its statements in order, each on what the one before left |
| MigrationRunner.AppliesIff | backend/src/db/migrationRunner.ts:268-304 | A migration not recorded before is applied exactly if none of its statements fails; the content is what they leave and the tracker gains its version and name |
| MigrationRunner.RecordsAreKept | backend/src/db/migrationRunner.ts:251-305 | A recorded version keeps its recorded name |
| MigrationRunner.Resume | backend/src/db/migrationRunner.ts:251-305 | A run cut short and started over ends where an uninterrupted one does |
| MigrationRunner.RerunRecovers | backend/src/db/migrationRunner.ts:219-308 | After any number of failed or crashed runs a clean rerun ends in the database of one clean run |
| MigrationRunner.RerunSkipsEverything | backend/src/db/migrationRunner.ts:251-266 | A rerun after success applies nothing and skips every file |
| MigrationRunner.DoneIffNotStopped | backend/src/db/migrationRunner.ts:251-307 | Success is reported exactly when the run does not stop early |
| MigrationRunner.ApplyExtends | backend/src/db/migrationRunner.ts:268-302 | An applied migration extends the recorded history by itself |
| MigrationRunner.HistoryGrows | backend/src/db/migrationRunner.ts:219-308 | After a run the database is the fold of the old history and some of the files |
| MigrationRunner.CommittedIsFoldOfRecorded | backend/src/db/migrationRunner.ts:219-308 | Under every fault the committed database is the fold of exactly the recorded migrations |
| MigrationRunner.NewDatabaseReflects | backend/src/db/migrationRunner.ts:219-308 | After any runs over a new database, failed or not, the committed database is its beginning with exactly the recorded migrations applied |
| PurchaseOrders.PoSequenceStore.AllocateNext | backend/src/orchestration/tools/poSequence.ts:54-66 | The user's counter goes up by one, stopping at 2^53, and no other counter changes |
| PurchaseOrders.PoNumberDecodes | backend/src/orchestration/tools/poGenerator.ts:90-94 | The printed number can be read back to its date part and sequence, past 9999 too |
| PurchaseOrders.SamePoNumberSameSequence | backend/src/orchestration/tools/poGenerator.ts:90-94 | Equal printed numbers have equal dates and sequences |
| PurchaseOrders.PoNumberShape | backend/src/orchestration/tools/poGenerator.ts:89-94 | Up to 9999 the number has the form PO-YYYYMMDD-NNNN |
| PurchaseOrders.ComputeSubtotal | backend/src/orchestration/tools/poGenerator.ts:97-101 | The loop gives the sum of the line totals rounded once, in exact arithmetic |
| PurchaseOrders.SubtotalNearPrinted | backend/src/orchestration/tools/poGenerator.ts:97-113 | Subtotal and printed line totals differ by at most (n + 1) / 2 cents |
| PurchaseOrders.SubtotalIsPrinted | backend/src/orchestration/tools/poGenerator.ts:97-113 | They are equal when every unit price is a whole number of cents |
| ApprovalGate.Orchestrator.AllocateNumber | backend/src/orchestration/orchestratorTools.ts:134-143 | The allocation before a PO draft is one step of the modelled protocol |
| ApprovalGate.Orchestrator.SendApprovalRequest | backend/src/orchestration/approvalGate/index.ts:34-48 | Building and sending the request is one step of the protocol |
| ApprovalGate.Orchestrator.WaitForDecision | backend/src/orchestration/approvalGate/pure.ts:93-128 | Registering listener and timer is one step of the protocol |
| ApprovalGate.Orchestrator.OnDecision | backend/src/orchestration/approvalGate/pure.ts:101-107 | Calling every registered listener with a decision is one step of the protocol |
| ApprovalGate.Orchestrator.OnTimeout | backend/src/orchestration/approvalGate/pure.ts:117-124 | The timer going off is one step of the protocol |
| ApprovalGate.Orchestrator.AfterDecision | backend/src/orchestration/orchestratorTools.ts:60-76 | Going on after the gate, with the write if approved, is one step of the protocol |
| ApprovalGate.InvAlways | backend/src/orchestration/orchestratorTools.ts:79-159 | The protocol invariant holds in every reachable state |
| ApprovalGate.WritesAreApproved | backend/src/orchestration/orchestratorTools.ts:88-159 | Every write follows a request showing that draft and an approval of it before the gate's timeout, in every interleaving |
| ApprovalGate.GatesSettleOnce | backend/src/orchestration/approvalGate/pure.ts:93-128 | Gates settle at most once; listeners and timers are exactly those of the pending gates |
| ApprovalGate.DecisionReachesItsGates | backend/src/orchestration/approvalGate/pure.ts:101-107 | A decision settles every pending gate of its request id and touches no other call |
| ApprovalGate.OneDecisionOneGate | backend/src/orchestration/approvalGate/pure.ts:101-107 | One decision settles two pending gates exactly when they share a request id |
| ApprovalGate.OnlyTheWrittenDraftWasShown | backend/src/orchestration/orchestratorTools.ts:88-159 | With distinct ids the only request sent under a written row's id showed what was written, for any seed |
| ApprovalCourse.Asks | backend/src/orchestration/orchestratorTools.ts:88-159 | A ready call with an accepted input shows its own draft, an order under its number, and moves on, or ends in an error if the request fails before or after it is sent; one with a refused input ends in an error with nothing shown |
| ApprovalCourse.Numbers | backend/src/orchestration/orchestratorTools.ts:134-143 | An order is numbered first, with the next count of its user, or ends in an error, the number spent or not |
| ApprovalCourse.Resumes | backend/src/orchestration/orchestratorTools.ts:60-159 | What follows a decision under every fault: rejected, done, or an error with its row written or not |
| ApprovalCourse.TimesOut | backend/src/orchestration/approvalGate/pure.ts:117-124 | In every reachable state the timer of a waiting gate ends it as timed out, its listener and timer gone |
| ApprovalCourse.CourseEnds | backend/src/orchestration/orchestratorTools.ts:60-159 | A call asked about, listened for, decided and resumed, whatever others do in between, ends done or rejected as decided; approved, its very draft is written last, a message draft aside, and otherwise nothing ever is |
| ApprovalCourse.ErrorMeansRefused | backend/src/orchestration/orchestratorTools.ts:79-159 | A call that no fault befalls ends in an error only if its input was refused, and with a refused input never comes to be asked about |
| ApprovalNumbers.KthAllocation | backend/src/orchestration/tools/poSequence.ts:54-66 | In every run a user's k-th number is the seed plus k, up to 2^53, whatever others do and gates decide |
| ApprovalNumbers.SameNumberIffCapped | backend/src/orchestration/tools/poSequence.ts:54-66 | Two allocations of a user agree exactly when the counter had reached 2^53 |
| ApprovalNumbers.OrdersHaveDistinctNumbers | backend/src/orchestration/orchestratorTools.ts:134-159 | Below that cap no two orders of one user share a PO number |
| ApprovalNumbers.CappedOrdersCollide | backend/src/orchestration/tools/poSequence.ts:11-66 | At 2^53 two approved orders of a user are written under one PO number |
| ApprovalStatus.StatusesAreTrue | backend/src/orchestration/orchestratorTools.ts:60-159 | In every reachable state done, rejected and timed out tell what arrived for the request and whether a row was written; an error hides a row exactly if the write failed after its effect |
| Json.ParseQuoted | backend/src/db/mapping/serializers.ts:41-48 | Reading a quoted string gives it back, for every sequence of code units |
| Json.EscapeIs | backend/src/db/mapping/serializers.ts:41-43 | How JSON.stringify writes each code unit: the short escapes, control characters and lone surrogates by number, all others as they are |
| Json.ParsePrinted | backend/src/db/mapping/serializers.ts:41-48 | Reading a printed value, with anything after it that cannot extend a number, gives the value |
| Json.ParseOfPrint | backend/src/db/mapping/serializers.ts:41-48 | JSON.parse undoes JSON.stringify on every value |
| Json.PrintIsInjective | backend/src/comms/contentHash.ts:19-20 | Two values with one text are the same value |
| ContentHash.SortSorts | backend/src/comms/contentHash.ts:39-39 | The copied list is sorted by code unit and keeps every recipient with its multiplicity |
| ContentHash.SortedIsUnique | backend/src/comms/contentHash.ts:39-39 | Lists with the same recipients have one sorted form |
| ContentHash.CanonicalIffSameContent | backend/src/comms/contentHash.ts:36-41 | Canonical texts agree exactly when sender, body and recipients as a multiset do |
| ContentHash.DecodeOfUtf8 | backend/src/comms/contentHash.ts:42-42 | UTF-8 of a text without lone surrogates can be decoded |
| ContentHash.Utf8IsNotInjective | backend/src/comms/contentHash.ts:42-42 | On arbitrary text it cannot: a lone surrogate and the replacement character share their bytes |
| ContentHash.PrintIsWellFormed | backend/src/comms/contentHash.ts:37-41 | JSON.stringify never writes a lone surrogate |
| ContentHash.HashedBytesIffSameContent | backend/src/comms/contentHash.ts:36-43 | The bytes given to the digest agree exactly for messages of the same content |
| IsoTime.ComposeOfSplit | backend/src/comms/idempotencyChecker/pure.ts:104-126 | Calendar fields determine the instant, over the whole range of dates |
| IsoTime.YearsFollow | backend/src/comms/idempotencyChecker/pure.ts:104-126 | Years follow one another with the leap years of the Gregorian calendar |
| IsoTime.MonthLengths | backend/src/comms/idempotencyChecker/pure.ts:104-126 | Each month has its length |
| IsoTime.KnownInstants | backend/src/comms/idempotencyChecker/pure.ts:104-126 | The epoch and a moment on 29 February 2000 have their calendar fields |
| IsoTime.IsoLayout | backend/src/comms/idempotencyChecker/pure.ts:62-65 | The text has the form YYYY-MM-DDTHH:mm:ss.sssZ with each field at its place |
| IsoTime.RenderOrder | backend/src/comms/idempotencyChecker/index.ts:108-119 | Fixed-width fields compare as text the way their first difference does |
| IsoTime.ParseOfIso | backend/src/db/mapping/dalConstraints.ts:59-65 | Date.parse undoes toISOString on every date |
| IsoTime.ComposeIff | backend/src/db/mapping/dalConstraints.ts:59-65 | Fields denote an instant only if they are a date of the calendar and a time of day, and then always within the years that lie wholly in range |
| IsoTime.IsoIsInjective | backend/src/comms/idempotencyChecker/pure.ts:104-104 | Two instants with one text are the same instant |
| IsoTime.TextOrder | backend/src/comms/idempotencyChecker/pure.ts:17-24 | Text order is time order exactly when the later year is 0 to 9999, or the earlier beyond, or both are the same; else it is the reverse |
| IsoTime.OrderBreaksInYear10000 | backend/src/comms/idempotencyChecker/pure.ts:17-24 | Two instants one second apart whose texts are in the opposite order |
| Idempotency.SelectWindowIsFirst | backend/src/comms/idempotencyChecker/index.ts:115-119 | The window SELECT returns the most recent row of the window, ties by id, and nothing exactly if it is empty |
| Idempotency.KeyStore.ExecuteProviderIdGate | backend/src/comms/idempotencyChecker/index.ts:246-312 | The gate is the two statements of the model in sequence, either failing before or after its effect |
| Idempotency.KeyStore.ExecuteContentHashGate | backend/src/comms/idempotencyChecker/index.ts:314-368 | The gate is the SELECT and the INSERT of the model in sequence, either failing before or after its effect |
| Idempotency.KeyStore.LinkIdempotencyKey | backend/src/comms/idempotencyChecker/index.ts:377-402 | Sets the link of that key and nothing else, and tells whether the key was there, or fails before or after it |
| Idempotency.LinkSets | backend/src/comms/idempotencyChecker/index.ts:377-402 | In any run a link sets the message of the key with that id and touches nothing else |
| Idempotency.InvAlways | backend/src/comms/idempotencyChecker/index.ts:246-368 | The table invariant holds after every interleaving of the statements of any checks and links |
| Idempotency.AtMostOneNovel | backend/src/comms/idempotencyChecker/index.ts:246-312 | Of any concurrent checks of a message at most one is ever novel, whatever fails and however |
| Idempotency.ExactlyOneNovel | backend/src/comms/idempotencyChecker/index.ts:246-312 | Once a check of a new message is decided exactly one has written the key and every other one decided is a duplicate naming it; one is novel exactly if none of them is lost |
| Idempotency.LostIffFailedAfter | backend/src/comms/idempotencyChecker/index.ts:252-258 | A check is lost, its row written and an error reported, exactly if its INSERT failed after its effect |
| Idempotency.StoredKeyWins | backend/src/comms/idempotencyChecker/index.ts:246-312 | A message already stored is never novel again and always matched with its key |
| Idempotency.ErrorsComeFromTheDatabase | backend/src/comms/idempotencyChecker/index.ts:246-368 | With no failing statement and an id of its own no check ends in an error; the missing conflict row cannot happen |
| Idempotency.StatementsDecide | backend/src/comms/idempotencyChecker/index.ts:246-368 | Two statements decide every check, and an error names the statement it comes from |
| Idempotency.DuplicatesHaveAKey | backend/src/comms/idempotencyChecker/index.ts:314-348 | In every interleaving a content-hash duplicate matches a stored key of that hash in its window |
| Idempotency.DuplicateCarriesTheLink | backend/src/comms/idempotencyChecker/index.ts:305-347 | A duplicate carries the id and link its matched key has at that moment |
| Idempotency.HashRace | backend/src/comms/idempotencyChecker/index.ts:16-18 | On a new table two checks of one hash that both SELECT before either INSERT are both novel |
| Idempotency.RaceNeedsOverlap | backend/src/comms/idempotencyChecker/index.ts:16-18 | Two checks of one hash, each in the window of the other, both write only if each SELECT precedes the other's INSERT |
| DedupRules.TextCompare | backend/src/comms/idempotencyChecker/index.ts:108-119 | Comparing stamps as text is comparing instants, for a second instant in the years 0 to 9999 and a first not beyond |
| DedupRules.WindowIsRecent | backend/src/comms/idempotencyChecker/index.ts:115-119 | For stamps in the years 0 to 9999 the SQL window is the window of decideDedup |
| DedupRules.SearchFinds | backend/src/db/mapping/dalConstraints.ts:44-57 | decideDedup suppresses exactly if a stored key of the hash is at most ten minutes older, and names one |
| DedupRules.GateRefinesDecideDedup | backend/src/comms/idempotencyChecker/index.ts:314-368 | The gate run alone suppresses exactly when decideDedup does, which never throws, on stamps in the years 0 to 9999 |
| DedupRules.MostRecentAbsorbs | backend/src/comms/idempotencyChecker/index.ts:112-119 | With several keys of a hash in the window the latest is matched, and the smallest id among equals |
| DedupRules.EveryHistoryRefines | backend/src/comms/idempotencyChecker/index.ts:236-368 | So it does after every history of messages, whatever the clock did |
| DedupRules.StoredKeysAreSpaced | backend/src/comms/idempotencyChecker/index.ts:314-368 | With a clock that never goes back, keys of one hash are more than ten minutes apart |
| DedupRules.MatchIsTheSuppressor | backend/src/comms/idempotencyChecker/index.ts:314-348 | Then the matched key is the one decideDedup names, and the only one in the window |
| DedupRules.GateMissesAcrossYear10000 | backend/src/comms/idempotencyChecker/pure.ts:17-24 | A message seen again one minute later across the end of year 9999 is novel to the gate and suppressed by decideDedup |
| DedupRules.ExactClocks | backend/src/comms/idempotencyChecker/pure.ts:17-24 | The SQL window is the millisecond window for a key of any instant exactly at clocks whose ten minutes lie in one year, in the years 0 to 9999, or beyond |
| DedupRules.GateExactClocks | backend/src/comms/idempotencyChecker/index.ts:314-368 | The gate agrees with decideDedup on a key of its hash first seen at any instant exactly at those clocks |
| DedupRules.PlannedExpiryPasses | backend/src/db/mapping/dalConstraints.ts:127-152 | Every planned key passes the expiry check, and no other expiry would |
| DedupRules.TenMinutes | backend/src/db/mapping/dalConstraints.ts:22-57 | With one stored key of the hash, gate and decideDedup suppress exactly if it is 0 to 600,000 milliseconds old, in the years 0 to 9999; else the message is novel and stored |
| DedupRules.KeysLive | backend/src/comms/idempotencyChecker/pure.ts:104-126 | A key of a provider message id is to expire 7,776,000,000 milliseconds after it was first seen, one of a content hash 86,400,000; which it is and its value follow from the id |
| DedupRules.ExpiryVerdicts | backend/src/db/mapping/dalConstraints.ts:127-152 | The expiry check passes exactly if both texts parse and are 90 days apart, or one for a content hash, and calls unparseable exactly what does not parse |
| DedupRules.DegradedWhy | backend/src/comms/idempotencyChecker/pure.ts:121-130 | A content-hash plan tells a missing provider message id from an empty one |
| DedupRules.NovelIsLinked | backend/src/comms/idempotencyChecker/index.ts:377-402 | A novel message that is linked leaves its new row pointing at it |
| CommsLog.StringArrayFromDb | backend/src/db/mapping/serializers.ts:54-68 | The loop returns the strings, or malformed JSON, or wrong shape |
| CommsLog.StringArrayIff | backend/src/db/mapping/serializers.ts:45-68 | A column reads as a list of strings exactly when its text is JSON for that list |
| CommsLog.RecordRoundTrip | backend/src/db/mapping/commsLog.ts:90-153 | Every record comes back from its row |
| CommsLog.RowRoundTrip | backend/src/db/mapping/commsLog.ts:90-153 | A readable row is the row of its record exactly when its recipients are written compactly |
| CommsLog.NothingIsLostInStorage | backend/src/comms/commsLogWriter/pure.ts:100-160 | The input can be recovered from the stored row, and the fields the writer owns are as it stamps them |
| CommsLog.CommsStore.StoreCommsLog | backend/src/comms/commsLogWriter/index.ts:191-243 | Result and table after a write, for every outcome of the INSERT, failures after its effect included |
| CommsLog.StoreAdds | backend/src/comms/commsLogWriter/index.ts:191-243 | The table changes only by a row that reads back as the assembled record, with a stored result, or with a failure exactly if the INSERT failed after adding it; the missing-row branch cannot happen |
| CommsLog.TableIsSound | backend/migrations/001_phase4_comms.sql:40-99 | In every reachable table at most one row per provider and message id, direction and delivery state paired, every row readable |
| CommsLog.NullIdStored | backend/src/comms/commsLogWriter/index.ts:21-28 | A write without provider id adds its row exactly when its provenance is the content hash |
| CommsLog.DuplicateIff | backend/src/comms/commsLogWriter/index.ts:98-105 | A write is a duplicate exactly when the database works and the table holds its provider and message id, and is reported under them |
| CommsLog.StoredOnce | backend/src/comms/commsLogWriter/index.ts:191-243 | In every run a write on a working database is a duplicate exactly when an earlier one for that message added its row, reported or not |
| CommsLog.GateKeepsCovered | backend/src/comms/commsLogWriter/index.ts:191-243 | Storing only what the gate found novel, every logged row with a non-empty provider id has its key, whatever befalls the write |
| CommsLog.GateRuns | backend/src/comms/idempotencyChecker/pure.ts:104-126 | The gate comes to a verdict whenever the times it plans with are dates |
| CommsLog.EmptyIdIsDropped | backend/src/comms/commsLogWriter/index.ts:98-105 | On such tables a message the gate found novel is dropped as a duplicate exactly if its provider id is empty and its provider already has a row with an empty one |
| CommsLog.SecondEmptyIdIsDropped | backend/src/comms/idempotencyChecker/pure.ts:104-126 | Two different messages with empty provider ids: the gate finds both novel, the log stores the first and drops the second |
| SessionCache.ParseAllInto | backend/src/orchestration/sessionPersistence.ts:146-158 | The loop returns every parsed value in order, or nothing if one does not parse |
| SessionCache.MessageIsRead | backend/src/orchestration/sessionPersistence.ts:160-170 | A written message is read back, with or without its timestamp |
| SessionCache.ConsistIsRead | backend/src/orchestration/sessionPersistence.ts:202-223 | A written consist context is read back, null included |
| SessionCache.CacheRoundTrip | backend/src/orchestration/sessionPersistence.ts:225-268 | Every saved state is loaded as it was |
| SessionCache.CacheTellsStatesApart | backend/src/orchestration/sessionPersistence.ts:352-381 | Different states have different cache texts |
| SessionLog.ReplaySessionLog | backend/src/orchestration/sessionPersistence.ts:388-563 | The loop is the fold of the entries, or the first error |
| SessionLog.ReplayAppend | backend/src/orchestration/sessionPersistence.ts:465-562 | Replaying one log and stepping through another is replaying both |
| SessionLog.StepEffects | backend/src/orchestration/sessionPersistence.ts:498-559 | What each kind of entry changes and what it leaves alone |
| SessionLog.AcceptedIff | backend/src/orchestration/sessionPersistence.ts:470-559 | An entry of another schema version is passed over; one of version 1 is accepted exactly if its payload is an object with a string under each name its kind is read by, and a flag type is one of four |
| SessionLog.EntryIsAsSaid | backend/src/orchestration/sessionPersistence.ts:498-559 | What an accepted entry of each kind does, by the strings its payload has under their names |
| SessionLog.FlagIsAsSaid | backend/src/orchestration/sessionPersistence.ts:525-533 | An accepted flag_raised appends the flag its payload describes, raised at the row's timestamp and unacknowledged, and nothing else changes |
| SessionLog.HistoryIsTheMessages | backend/src/orchestration/sessionPersistence.ts:507-523 | The history is the messages of the log in order |
| SessionLog.TimesOfReplay | backend/src/orchestration/sessionPersistence.ts:499-553 | Opening time and edition are those of the last opening; the last interaction is the later of it and the last interacting entry |
| SessionLog.AcknowledgeAt | backend/src/orchestration/sessionPersistence.ts:535-540 | An acknowledgement marks the first flag of its id and no other |
| SessionLog.AcknowledgedIff | backend/src/orchestration/sessionPersistence.ts:525-540 | The flag an entry raised is as its payload says, at its place among the raising entries, and acknowledged exactly if no earlier entry raises the payload's flagId and a later one acknowledges it |
| SessionLog.CacheAgreesWithLog | backend/src/orchestration/sessionPersistence.ts:352-381 | A live state stepped along the log, saved and loaded, is the replayed state but for the marker |
| SessionLog.SessionDb.AppendEntry | backend/src/orchestration/sessionPersistence.ts:275-346 | The entry is appended exactly when its payload is a complete object and the write takes effect; an error is reported unless it worked |
| SessionLog.WrittenIff | backend/src/orchestration/sessionPersistence.ts:56-115 | An entry is written exactly if its payload is an object with every name its kind must carry and the write takes effect; the row has that payload |
| SessionLog.WrittenEntriesReplay | backend/src/orchestration/sessionPersistence.ts:56-68 | A written entry is refused by a replay only for the type of a field: with strings where it reads strings and a known flag type it is accepted |
| SessionLog.SessionDb.UpdateStateObject | backend/src/orchestration/sessionPersistence.ts:352-381 | The session's cached text is replaced and no other, if the write takes effect |
| SessionLog.SessionDb.Open | backend/src/orchestration/sessionPersistence.ts:568-660 | State found, log afterwards and error, for every failing read or write, before or after its effect |
| SessionLog.LoadsFrom | backend/src/orchestration/sessionPersistence.ts:578-623 | A saved state wins, whatever the log; without one the log is replayed; without either the session is new; an unreadable log is an error only without a saved state |
| SessionLog.OpensWith | backend/src/orchestration/sessionPersistence.ts:625-659 | A loaded state is returned and its opening appended to the log under its names, unless the write fails; a failed load leaves everything alone |
| SessionLog.SaveIsLoaded | backend/src/orchestration/sessionPersistence.ts:352-381 | A save that takes effect, reported or not, is what the next opening loads; one that does not changes nothing |
| SessionLog.OpenEntryReplays | backend/src/orchestration/sessionPersistence.ts:628-648 | The entry an opening writes is always accepted and replays to its opening time |
| SessionLog.ReopeningRewinds | backend/src/orchestration/sessionPersistence.ts:499-505 | After a reopening the replay sets the last interaction back to the opening; it is unchanged exactly if nothing had happened |
| SessionLog.MorningForgotten | backend/src/orchestration/sessionPersistence.ts:499-505 | Opened at 9:00, spoken in at 9:05, reopened at 9:10: the replay holds the message and a last interaction of 9:00 |
| SessionLog.OpenedAtSurvives | backend/src/orchestration/sessionPersistence.ts:568-660 | The time of the first opening that wrote its entry survives any entries, saves, failures before or after their effect, and reopenings |
| Csv.ReadEscaped | backend/src/orchestration/tools/sheetOutput.ts:44-51 | An escaped cell is read back, whatever it holds |
| Csv.ReadWritten | backend/src/orchestration/tools/sheetOutput.ts:55-73 | Any records joined as the writer joins them are read back |
| Csv.BuildCsvPayload | backend/src/orchestration/tools/sheetOutput.ts:66-73 | A reader of the payload finds the headers and every cell's text in order |
| Csv.EmptyCells | backend/src/orchestration/tools/sheetOutput.ts:53-57 | In the file a text cell reads as it is, a number as shown, a null cell as empty, and a missing one as empty exactly when its header names none of the twelve inherited properties |
| Csv.ConstructorColumn | backend/src/orchestration/tools/sheetOutput.ts:55-57 | The file of a row with no cell under `constructor` shows the inherited function there |
| Csv.InheritedCells | backend/src/orchestration/tools/sheetOutput.ts:53-57 | Under the twelve names a missing cell shows the text of the inherited property |
| Csv.ValidateSheetTable | backend/src/orchestration/tools/sheetOutput.ts:19-36 | No fault exactly for a valid table; a header fault is the first one |
| Csv.BuildSheetOutput | backend/src/orchestration/tools/sheetOutput.ts:76-88 | Output exactly for valid tables, readable back to the table |
| Sms.LastBoundary | backend/src/orchestration/outputRouter.ts:144-153 | The last sentence boundary of the window, or none |
| Sms.CutIsLastBoundary | backend/src/orchestration/outputRouter.ts:155-164 | A cut is after the last boundary past the first character, and at the limit only without one |
| Sms.FormatForSms | backend/src/orchestration/outputRouter.ts:134-168 | The loop terminates with the pieces of the text, and the final filter drops none |
| Sms.NothingIsLost | backend/src/orchestration/outputRouter.ts:134-168 | The segments less their ellipses carry the non-white code units in order, each once |
| Sms.SegmentsAreSized | backend/src/orchestration/outputRouter.ts:134-168 | At most 1600 characters, or 1601 with the ellipsis; all but the last end in punctuation or the ellipsis |
| Sms.LimitKeptIff | backend/src/orchestration/outputRouter.ts:119-164 | No segment exceeds 1600 characters exactly when no cut at the limit falls on a non-white 1600th character |
| Sms.WindowsDecide | backend/src/orchestration/outputRouter.ts:119-164 | If every 1600 units beginning with a character and followed by text have a boundary past the first or end in white space, the limit is kept; if the first 1600 do not, it is not |
| Sms.PairIsHalvedIff | backend/src/orchestration/outputRouter.ts:156-164 | A cut of well-formed text leaves lone surrogates exactly if it is at the limit between the halves of a pair |
| Sms.EmojiIsHalved | backend/src/orchestration/outputRouter.ts:156-164 | 1599 letters and an emoji give two segments with one half each |
| Sms.LongWordOverruns | backend/src/orchestration/outputRouter.ts:160-164 | 1601 letters give a segment of 1601 characters |
| Sms.RouteToSms | backend/src/orchestration/outputRouter.ts:241-289 | Delivered, failed and the calls made, for every behaviour of the sender |
| Sms.RecipientsArePartitioned | backend/src/orchestration/outputRouter.ts:257-279 | Delivered and failed recipients are the recipients, none lost or repeated |
| Sms.PrefixIsAttempted | backend/src/orchestration/outputRouter.ts:263-274 | Each recipient is sent the segments in order up to the first that fails, all exactly if delivered |
| Sms.BlankTextIsDelivered | backend/src/orchestration/outputRouter.ts:257-279 | A recipient is reported delivered with nothing sent to it exactly if the text is all white space; then all are |
| PromptTrim.EstimateMessagesTokens | backend/src/orchestration/tokenUtils.ts:13-20 | The reduction gives the estimate of the list |
| PromptTrim.EstimateOfConcatenation | backend/src/orchestration/tokenUtils.ts:9-11 | Estimating two texts apart gives the estimate of both together or one token more |
| PromptTrim.FourToTheToken | backend/src/orchestration/tokenUtils.ts:9-11 | Four times the estimate of a text is its length, up to 3 more |
| PromptTrim.EstimateBounds | backend/src/orchestration/tokenUtils.ts:13-20 | Four times the estimate of messages is their length and 16 to 19 more for each |
| PromptTrim.WindowLeft | backend/src/orchestration/promptAssembler.ts:99-113 | Without a configured window or reserve, 200,000 and 4,000 tokens are taken |
| PromptTrim.EstimateCovers | backend/src/orchestration/tokenUtils.ts:13-20 | The estimate of messages is at least that of their joined text and their overhead |
| PromptTrim.TrimHistory | backend/src/orchestration/promptAssembler.ts:75-87 | Keeps the longest suffix that fits, or nothing, and counts what it drops |
| PromptTrim.AssemblePrompt | backend/src/orchestration/promptAssembler.ts:125-163 | Input last; the estimate fits the window exactly when the fixed parts do, and covers everything sent; no turn is dropped needlessly |

## Left out

- ContentHash.ComputeContentHash: SHA-256 is an arbitrary function; only its input is reasoned about.
- Json.ParseOfPrint: numbers are integers; fractions and exponents are neither printed nor read. Property order and repeated names of an object are kept as written.
- PurchaseOrders.ComputeSubtotal: exact arithmetic with halves rounded up instead of IEEE doubles; the source's division by 100 is left in cents. Draft building and formatting are one abstract function from input to draft.
- ApprovalNumbers.SameNumberIffCapped: seeds are non-negative integers up to 2^53; the store is not shared by processes and is not restarted.
- MigrationRunner.RunMigrations: migration SQL contains no transaction control and does not touch the tracker; the connection has no transaction open at the start. The time recorded with a migration is not kept.
- MigrationFiles.LoadMigrationsFromDir: the directory listing and file contents are given; the file system is not modelled.
- IsoTime.ParseOfIso: Date.parse is modelled on the one form toISOString writes; other date forms count as unparseable.
- Idempotency.ErrorsComeFromTheDatabase: drawn ids are parameters and assumed different where a result needs it; foreign keys and rows being purged are not modelled.
- DedupRules.GateRefinesDecideDedup: stated for clocks in the years 0 to 9999 and stored stamps of those years; GateExactClocks has the clocks at which one key of any year is treated alike.
- CommsLog.TableIsSound: column CHECKs on the vocabularies are the datatypes; a foreign-key failure is one of the failing writes. Texts stored directly are kept as code units, so the loss of lone surrogates in SQLite's encoding is not modelled.
- SessionLog.ReplaySessionLog: the query's ordering by timestamp is taken to be the order of writing, so timestamps are assumed distinct. Logging of skipped entries is not modelled.
- SessionLog.OpenedAtSurvives: the retention purge is not modelled.
- Csv.BuildCsvPayload: a number cell is the text JavaScript shows for it. `Object.prototype` is as the language defines it; the text of its functions is the one V8 gives.
- Sms.FormatForSms: the markdown patterns are taken out before; segmentation starts from the text left.
- PromptTrim.AssemblePrompt: the style and context blocks are given as text; the percentage of the window is not computed.
- Text normalisation and reading of files in score_wer.py: only the token lists and the arithmetic are modelled.
- todo_update, the regeneration-limit message, push and app delivery, FCM encryption, the event router, the pre-flight rules and the model audit: not modelled.
- Logging, diagnostic events and the wording of errors: a result carries the kind of error only.
- The Swift, Kotlin and Flutter clients: not modelled.
