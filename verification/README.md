# A verified model of the CRM Customer 360 cores

This project models the parts of the CRM whose behaviour is easy to get wrong and hard to see from
any one function, and proves what they promise. `dafny verify dfyconfig.toml` checks all of it.

| module | what it models |
|---|---|
| `WorkerPool` | the bounded pool of the live-autonomy runner: several `next()` loops share a cursor and a results array, and any pending call may settle next, with a value or with a rejection |
| `Migrations` | the migration runner and its `schema_migrations` ledger, with a run that can be broken off at every step, and any number of runs after one another |
| `Observations`, `Resolution` | customer identity resolution on any list of observations: keys, ranks, deduplication, buckets, conflicts, selection and status |
| `Readers`, `CustomerResolution` | the six source readers with the observation made of the request, and the resolver from request and rows to answer |
| `RowOrder` | when the order in which the database gives the rows changes the customer named |
| `Phones` | Chilean phone normalisation, the candidate list, and the phone match of the address reader |
| `WhereCompiler`, `Sql` | identity terms compiled to a WHERE clause with positional parameters, read back by an evaluator of the clause's tokens |
| `ColumnCache` | the column cache, with questions that overlap while they wait for the database |
| `StatementBuilders` | the UPDATE and INSERT builders, with positional binding as the database does it |
| `Timeline` | the conversation workspace: last-write-wins merges of sent and older messages |
| `Percentile`, `CountMaps`, `Evaluation` | the evaluation report: nearest-rank percentile, counts expanded and recounted, case analysis, the verdict |
| `UriComponent`, `DatabaseUrl` | `encodeURIComponent`/`decodeURIComponent` down to the UTF-8 octets, the database URL built and parsed |
| `DatabaseHost`, `DatabaseEnv` | what a built URL leads to whatever text is put in the place of the host; the connection details resolved from the environment |
| `Options`, `Sequences`, `Sorting` | shared definitions and facts; `Sorting` is the stable sort behind `Array.prototype.sort` |

Code that changes state step by step is a class or a method with loops, proved against a function;
the theorems are then about that function, for every input, every schedule or every sequence of runs.

Facts that serve the theorems below and have no row of their own stand beside them in the modules:
the grades of the identity types, deduplication of a list without repetitions, buckets counted by
key, a null WHERE value (no row), cleaning twice, and the characters of encoded text.

Where the code and its documentation disagree, the model follows the code:

- `docs/customer-identity-contract.md:206-215` says a no-merge reason forces `conflict_needs_review`
  or `not_enough_identity`. The code asks for two strong buckets as well. `NoMergeRuleIff` gives the
  exact condition for any observations, `NoMergeRuleForReadingsIff` for those that readers deliver,
  and `SharedPhoneBreaksNoMerge` the requests and rows that break the rule.
- Three of the four documented conflict reasons cannot arise, since the readers report only
  e-mails, customer ids, orders and invoices that equal the request's own: `OnlyPhonesAreReasons`.
  Two customers with one e-mail address are therefore no conflict, and the order of the database's
  rows picks one of them: `OrderOfRowsDecides`. `CustomerIgnoresRowOrderIff` says exactly when the
  customer named is safe from that order.
- `docs/customer-identity-validation.md:80` says a missed conflict fails the evaluation. The code
  counts it as a false negative and tolerates up to 15 percent of those. `FailIff` and
  `MissedConflictTolerated` say when.
- `docs/customer-identity-contract.md:188-194` ranks identities without `customer_master_id`; in
  the code that type comes first.
- `parsePort` admits ports that no URL can carry, and host and database are put into the URL as
  they are, so the details may hold a URL that does not parse or that names other parts:
  `PartsUrlReparsesIff`, with `LargePortBreaksUrl`. The test guard looks at the database variable
  only; `TestsStayInTheirDatabase` gives the hosts whose URL names the test database as well, and
  `HostVariableCanLeaveTests` some whose URL does not.
- The nine-digit candidate of a landline is sent to the database, but a row holding it never
  matches afterwards: `CandidatesNormalizeBackIff` and `LandlineCandidateMatchesNothing`.
- An exact match can be flagged as a false positive when the expectation leaves the status open:
  `ExactMatchFlags` and `ExactMatchFailsRun`.
- The first answer about a table does not stay in the column cache if questions overlap; a failed
  `DESCRIBE` can erase a good answer for good: `AnswerIsFinalIff` and `FailureErasesAnswer`.

## Model

| member | source | states |
|---|---|---|
| WorkerPool.ReachableSplit | scripts/commercial-live-autonomy-run.ts:235-249 | after any schedule each item before the cursor is in exactly one place (pending, completed, rejected), no other item is anywhere; there are min(concurrency, n) loops, none for a concurrency below one, and min(loops, n - completed) - rejected calls pending |
| WorkerPool.NeverMoreThanConcurrency | scripts/commercial-live-autonomy-run.ts:236-247 | at no time are more calls pending than the concurrency allows, and none with a concurrency below one |
| WorkerPool.ResultsInOrderOfSettling | scripts/commercial-live-autonomy-run.ts:243 | after any schedule the results are the values resolved, in the order in which the calls settled |
| WorkerPool.NoLoopEndsEarly | scripts/commercial-live-autonomy-run.ts:239-245 | while an item is untaken, only rejections have ended loops |
| WorkerPool.EveryScheduleEnds | scripts/commercial-live-autonomy-run.ts:239-248 | no schedule has more than n events, no state is stuck unless final, and final means no concurrency, all items settled, or as many rejections as the concurrency has loops |
| WorkerPool.FinalRunsEachItemOnce | scripts/commercial-live-autonomy-run.ts:239-248 | a final state without rejections took exactly n steps and completed every item once, exactly if n is 0 or the concurrency is at least 1 |
| WorkerPool.StepKeepsInv | scripts/commercial-live-autonomy-run.ts:240-244 | every settled call keeps the invariant that splits the items |
| WorkerPool.ResultsArePermutation | scripts/commercial-live-autonomy-run.ts:243-248 | when everything completed, the results are the worker's answers up to order |
| WorkerPool.Pool.constructor | scripts/commercial-live-autonomy-run.ts:236-247 | launching exactly min(concurrency, n) loops, none for a concurrency below one, each up to its first await with an item of its own |
| WorkerPool.Pool.Settle | scripts/commercial-live-autonomy-run.ts:243 | the shared fields after a settled call are those of the state machine's step |
| WorkerPool.RunPool | scripts/commercial-live-autonomy-run.ts:235-249 | whatever the order, the pool resolves exactly when no started call rejects, or the concurrency is below one, and then returns every answer once; with a concurrency below one it runs nothing |
| Migrations.Runner.VisitFile | scripts/db-migrate.ts:57-81 | one loop iteration, with every way it can be broken off, is one visit of the run function; `Migrations.RunStopsBecause` says what each way leads to |
| Migrations.Runner.RunMigrations | scripts/db-migrate.ts:47-85 | ledger, database history and reported counts after a run equal those of the run function; `Migrations.RunFinishesIff` and `Migrations.StoredRowsAreEarned` say what these are |
| Migrations.RunForm | scripts/db-migrate.ts:57-81 | any run executes and records exactly the unknown files before the one it stops at, in order, all passed files were unchanged, and the ledger only grows |
| Migrations.RunPassesIff | scripts/db-migrate.ts:57-81 | a run passes exactly the files before the first one that is not passable: unreadable, changed, or not recorded and hit by any fault or with a row the ledger refuses |
| Migrations.RunStopsBecause | scripts/db-migrate.ts:57-79 | which stop a run ends with, from the fault met at the file it stops at, the rows recorded for that file, and whether its row can be stored |
| Migrations.RunFinishesIff | scripts/db-migrate.ts:21-81 | under any faults a run finishes exactly when it was runnable, no listed file was unreadable, and no fault at all hit a file that the ledger did not hold |
| Migrations.StoredRowsAreEarned | scripts/db-migrate.ts:71-79 | the rows a run adds are exactly those of the unrecorded files it passed, and of the one it was interrupted at; each of these was met with no fault, or with the one after the record |
| Migrations.EveryHistoryIsSound | scripts/db-migrate.ts:54-81 | over all sequences of runs: names and versions unique under the collation of the ledger, each row carries the digest of the text executed just before it, nothing recorded is executed again |
| Migrations.LedgerOnlyGrows | scripts/db-migrate.ts:47-81 | ledger and history after fewer runs are prefixes of those after more |
| Migrations.UnrecordedIff | scripts/db-migrate.ts:73-78 | an execution is not followed by its record exactly when a run died, or was refused the row, with that execution as its last event |
| Migrations.TwiceMeansUnrecorded | scripts/db-migrate.ts:62-78 | if one file is executed twice, some run ended with the first execution, before recording it, and the file it stopped at is this one |
| Migrations.ExecutionsAreRowsOrLosses | scripts/db-migrate.ts:71-79 | over all sequences of runs the records are as many as the rows, and the executions as many as the rows and the runs that died before recording together |
| Migrations.FinishedRunRecordsAll | scripts/db-migrate.ts:57-81 | a finished run leaves every listed file recorded with the digest of its text |
| Migrations.SecondRunDoesNothing | scripts/db-migrate.ts:62-69 | running again after a finished run executes nothing |
| Migrations.FinishedRunReportsNonePending | scripts/db-migrate.ts:83-85 | the pending count of a finished run is 0 from any ledger, rows of deleted files included |
| Migrations.UndisturbedRunFinishesIff | scripts/db-migrate.ts:21-81 | an undisturbed run finishes exactly when every recorded row of a listed file has the digest of its text, and every unrecorded file has a row that fits the columns and, under the collation, clashes with no row and no unrecorded file before it |
| Migrations.MismatchStopsAtFirstChange | scripts/db-migrate.ts:63-66 | a mismatch stops at the first changed file, after executing and recording exactly the unknown files before it |
| Observations.RankIsLexicographic | lib/customer-identity/resolveCustomerCandidate.ts:112-147 | the rank sum orders exactly by confidence (high, medium, low), then by type (customer master, PrestaShop customer, e-mail, order, invoice, phone, WhatsApp id, anything else), then by source (PrestaShop, operators, WhatsApp with brain and MariaDB, n8n with imports, AppSheet, unknown) |
| Observations.KindsByOrder | lib/customer-identity/resolveCustomerCandidate.ts:149-163 | strong is PrestaShop, high confidence and a type before the phone; provisional is any other type |
| Observations.BucketKeyParts | lib/customer-identity/resolveCustomerCandidate.ts:106-110 | the bucket is the customer key, or else source, table, record and match |
| Observations.DedupeObservations | lib/customer-identity/resolveCustomerCandidate.ts:384-396 | the loop with its set of seen keys computes the deduplication |
| Observations.DedupeKeepsFirsts | lib/customer-identity/resolveCustomerCandidate.ts:384-396 | for every key the kept observation is the first one with it |
| Observations.DedupeIsDistinct | lib/customer-identity/resolveCustomerCandidate.ts:384-396 | no key is kept twice and nothing is invented |
| Observations.DedupeInStages | lib/customer-identity/resolveCustomerCandidate.ts:443-445 | deduplicating a prefix first changes nothing |
| Observations.BucketObservations | lib/customer-identity/resolveCustomerCandidate.ts:398-412 | the loop over the map yields one bucket a key with exactly the subsequence of that key, keys in order of first appearance |
| Observations.BucketsPartition | lib/customer-identity/resolveCustomerCandidate.ts:398-412 | bucket keys are distinct, no bucket is empty, and the buckets end to end are a permutation of the input |
| Resolution.ResolveObservations | lib/customer-identity/resolveCustomerCandidate.ts:447-503 | the branches of the resolver compute status, confidence, reasons, selection, customer key and candidate ids; the theorems below say what these are |
| Resolution.PrimaryIsFirstBest | lib/customer-identity/resolveCustomerCandidate.ts:338-340 | the primary observation is the first of the highest rank |
| Resolution.SelectionIsMaximal | lib/customer-identity/resolveCustomerCandidate.ts:414-457 | no observation in an eligible bucket has a better confidence than the selected one, nor at equal confidence an earlier type, nor then a better source; the customer named is the bucket of the selected one, or the request's own if there is none |
| Resolution.StrongSelection | lib/customer-identity/resolveCustomerCandidate.ts:449-458 | without conflict a strong bucket guarantees a high-confidence selection of a strong type |
| Resolution.ConflictIsMonotone | lib/customer-identity/resolveCustomerCandidate.ts:342-478 | adding observations never resolves a conflict nor drops a reason, for all settings |
| Resolution.ConflictIff | lib/customer-identity/resolveCustomerCandidate.ts:342-378 | a conflict is two strong candidates together with contradicting values or two uncertain phone signals |
| Resolution.ReasonsIff | lib/customer-identity/resolveCustomerCandidate.ts:342-378 | which of the four reasons is given for what; no other reason is given |
| Resolution.ReasonsInOrder | lib/customer-identity/resolveCustomerCandidate.ts:342-378 | the reasons are given in a fixed order, each once |
| Resolution.StatusIff | lib/customer-identity/resolveCustomerCandidate.ts:465-478 | each status class in terms of the observations, the request and the permission |
| Resolution.AnswerFollowsStatus | lib/customer-identity/resolveCustomerCandidate.ts:465-503 | confidence, review flag and reasons of the answer from conflict, permission and strong evidence |
| Resolution.LinkedIff | lib/customer-identity/resolveCustomerCandidate.ts:465-470 | an identity is linked, not resolved, exactly when a second observation is in the bucket of the selected one |
| Resolution.OrderChangesLittle | lib/customer-identity/resolveCustomerCandidate.ts:398-474 | permuting the observations changes neither the reasons, nor the rank selected, nor the status class |
| Resolution.StatusIgnoresOrderIff | lib/customer-identity/resolveCustomerCandidate.ts:414-478 | the exact condition for the full status to be the same in every order |
| Resolution.CustomerIgnoresOrderIff | lib/customer-identity/resolveCustomerCandidate.ts:414-503 | the customer named is the same in every order of the observations exactly when there is a conflict or no two eligible buckets tie for the highest rank |
| Resolution.CandidateIdsContents | lib/customer-identity/resolveCustomerCandidate.ts:462-465 | the candidate ids are the non-empty bucket keys and the key of the request, each once |
| Resolution.CandidatesInOrder | lib/customer-identity/resolveCustomerCandidate.ts:460-463 | the candidates are listed in the order in which they were observed, the request's own key last |
| Resolution.CustomerIsCandidate | lib/customer-identity/resolveCustomerCandidate.ts:452-503 | the customer named is a candidate, a conflict names none although two are at hand, and when else none is named |
| Resolution.NoMergeRuleIff | docs/customer-identity-contract.md:206-215 | when the documented no-merge rule holds of the code |
| Readers.FirstFitDecides | lib/customer-identity/sourceReaders.ts:175-677 | for every table: a row is observed exactly when one of the values its reader compares is equal, and the first such value in the reader's order names match and identity |
| Readers.ObservedForm | lib/customer-identity/sourceReaders.ts:175-677 | a row is observed exactly if a criterion fits, with the source of its table and the name of the first criterion |
| Readers.KeysByPreference | lib/customer-identity/sourceReaders.ts:161-173 | customer key and record id of an observation are the first ones there in a list of choices for each table, the value of the row before that of the request |
| Readers.MatchIsVouched | lib/customer-identity/sourceReaders.ts:175-677 | identities other than phones are the request's own value, phones and WhatsApp ids are never certain, and for a reader high confidence is strong type from PrestaShop or the customer master |
| Readers.SyntheticIsVouched | lib/customer-identity/resolveCustomerCandidate.ts:165-223 | the same of the observation made of the request |
| Readers.SyntheticKeyByPreference | lib/customer-identity/resolveCustomerCandidate.ts:165-175 | the key a request gives itself is the first of eight there |
| Readers.SyntheticByPreference | lib/customer-identity/resolveCustomerCandidate.ts:177-223 | when an observation is made of the request, of which identity, with which record id, and that it is certain unless only a phone or WhatsApp id is there |
| Readers.ReadTable | lib/customer-identity/sourceReaders.ts:185-211 | the readers' loop yields the observations of the matching rows in order |
| Readers.NormalizedRequest | lib/customer-identity/sourceReaders.ts:296-305 | the address reader's four phone tests come to two comparisons of normal forms |
| Readers.EqualKeysAreAlike | lib/customer-identity/resolveCustomerCandidate.ts:94-104 | readings with equal keys agree on everything but record ids absent or empty and degrees of uncertainty, if record ids hold no bar |
| CustomerResolution.ResolveCustomerCandidate | lib/customer-identity/resolveCustomerCandidate.ts:426-503 | the resolver equals one resolution of the deduplicated readings of all tables and the request; `CustomerResolution.PhoneNamesAddress` and the theorems on `Resolve` say whom it names |
| CustomerResolution.PhoneNamesAddress | lib/customer-identity/resolveCustomerCandidate.ts:414-503 | a request with a phone or WhatsApp id at most, whatever the tables hold: if a PrestaShop address has that phone, the customer of such an address is named, before any conversation and the request itself |
| CustomerResolution.NobodyFound | lib/customer-identity/resolveCustomerCandidate.ts:442-503 | a request that no row answers: its status from permission, settings and whether it names an identity, and its own key as the customer |
| CustomerResolution.OnlyPhonesAreReasons | lib/customer-identity/resolveCustomerCandidate.ts:342-378 | of the four conflict reasons only the ambiguous phone can arise, exactly when two uncertain phone signals are there |
| CustomerResolution.ConflictOfReadingsIff | lib/customer-identity/resolveCustomerCandidate.ts:342-478 | a conflict is two strong customers and two uncertain phone readings with different keys, before any deduplication |
| CustomerResolution.ClassOfReadings | lib/customer-identity/resolveCustomerCandidate.ts:442-478 | the status class of any readings, from their set alone |
| CustomerResolution.SameReadingsSameClass | lib/customer-identity/resolveCustomerCandidate.ts:433-478 | the order and repetition of readings change neither status class nor reasons |
| CustomerResolution.BarsChangeAnswer | lib/customer-identity/resolveCustomerCandidate.ts:94-104 | record ids with a bar: two addresses for which the order of the rows decides between a known and a provisional customer |
| CustomerResolution.NoMergeRuleForReadingsIff | docs/customer-identity-contract.md:206-215 | when the no-merge rule holds for what readers deliver |
| CustomerResolution.SharedPhoneBreaksNoMerge | docs/customer-identity-contract.md:206-215 | a phone in the addresses of two customers: the reason is there and the answer a provisional customer |
| CustomerResolution.OrderOfRowsDecides | lib/customer-identity/resolveCustomerCandidate.ts:414-503 | two customers with one e-mail address and an order of one of them: the order of the rows decides which customer is named, and whether linked or resolved |
| RowOrder.CustomerIgnoresRowOrderIff | lib/customer-identity/resolveCustomerCandidate.ts:433-503 | the customer named is the same in every order of the rows of each table exactly when there is a conflict, or nobody is eligible, or one eligible customer beats every other: by rank, or at equal rank by an earlier table, whichever twins deduplication keeps |
| RowOrder.UnrivalledIff | lib/customer-identity/resolveCustomerCandidate.ts:384-420 | if equal keys have equal ranks, that customer is the only best one seen in the earliest table with a best one |
| Phones.BuildPhoneCandidates | lib/customer-identity/normalize.ts:83-101 | the set built step by step: the digits, the normal form and its national part |
| Phones.CandidatesIff | lib/customer-identity/normalize.ts:83-101 | the candidates are the digits, the normal form, and its last nine digits |
| Phones.NormalizeIsIdempotent | lib/customer-identity/normalize.ts:23-40 | results are exactly the fixed points: eleven digits starting with 56 |
| Phones.NormalizeOrigins | lib/customer-identity/normalize.ts:23-40 | the inverse image of a normal form: itself, itself with a twelfth digit, or its nine-digit mobile part |
| Phones.SeparatorsDoNotMatter | lib/customer-identity/normalize.ts:9-50 | only the digits of the input matter |
| Phones.CandidatesInNormalForm | lib/customer-identity/normalize.ts:42-101 | for a row in normal form, candidate list and WhatsApp id say no more than the normal form |
| Phones.WaIdKeepsDigits | lib/customer-identity/normalize.ts:42-50 | a WhatsApp id is absent only without digits; it is the normal form of a phone, or else all its digits, and normalising again changes nothing |
| Phones.MatchByPhone | lib/customer-identity/sourceReaders.ts:296-305 | the four-way match is equality of normal forms with the phone or the WhatsApp id |
| Phones.CandidatesNormalizeBackIff | lib/customer-identity/normalize.ts:91-93 | every candidate normalises back exactly for absent and mobile normal forms |
| Phones.LandlineCandidateMatchesNothing | lib/customer-identity/normalize.ts:91-93 | a landline whose nine-digit candidate has no normal form |
| ColumnCache.Columns.Lookup | lib/db.ts:97-101 | up to the await: a cached table is answered at once, and another leaves a waiting question |
| ColumnCache.Columns.Store | lib/db.ts:101-108 | from the answer on: what is returned is what the cache holds, no columns after a failure |
| ColumnCache.LastAnswerStays | lib/db.ts:97-109 | over any interleaving of questions and answers the cache holds the last answer about each table |
| ColumnCache.CachedIsFinalIff | lib/db.ts:97-109 | what is cached of a table is final exactly when no question about it is waiting |
| ColumnCache.AnswerIsFinalIff | lib/db.ts:97-109 | an answer is final exactly when no other question about its table is waiting |
| ColumnCache.FailureErasesAnswer | lib/db.ts:105-108 | two overlapping questions: the failure that comes second erases the columns found, for good |
| WhereCompiler.CompileQuery | lib/customer-identity/sourceReaders.ts:66-107 | the nested loops build clause and parameters; the query is withheld exactly when no term has both a value that is neither null nor empty, once folded, and a listed column that exists; a limit from 1 to 50 is the last parameter unchanged |
| WhereCompiler.WhereAcceptsExactly | lib/customer-identity/sourceReaders.ts:72-100 | read left to right the clause takes all parameters but the limit, and accepts a row exactly when some term has a value that is neither null nor empty, once folded, and an existing listed column holds it, in lower case where asked |
| WhereCompiler.WithheldQueriesLoseNothing | lib/customer-identity/sourceReaders.ts:67-95 | where no query is issued no term could match any row |
| StatementBuilders.Table.UpdateExistingColumns | lib/db.ts:130-160 | the bound UPDATE is the restricted record, null entries included, on exactly the rows matching the WHERE value; the count is the number of columns written |
| StatementBuilders.Table.InsertExistingColumns | lib/db.ts:162-191 | the bound INSERT adds exactly the restricted record; the refusals |
| StatementBuilders.Table.Build | lib/db.ts:140-151 | placeholders and parameters stay aligned: binding them gives the restricted record |
| StatementBuilders.RestrictedContents | lib/db.ts:143-151 | column by column: the record's value, null included, the clock for the marker, nothing for unknown columns |
| StatementBuilders.UpdatedCells | lib/db.ts:143-158 | cell by cell: matching rows take what the record says, everything else stays |
| StatementBuilders.NullClears | lib/db.ts:143-158 | a null entry clears its column: no later test of it holds |
| StatementBuilders.UpdateTwice | lib/db.ts:158 | the same update again changes nothing more |
| Timeline.DedupeSort | components/conversations/workspace/ConversationWorkspace.tsx:11-20 | the map loop and sort compute the merge |
| Timeline.MergeIsStrictlySorted | components/conversations/workspace/ConversationWorkspace.tsx:14-19 | of two messages shown the first has the smaller time, or the same time and the key that comes first; keys are distinct |
| Timeline.MergeContents | components/conversations/workspace/ConversationWorkspace.tsx:12-13 | it shows exactly the last message of each key |
| Timeline.MergeHoldsLast | components/conversations/workspace/ConversationWorkspace.tsx:12-13 | it shows exactly the messages after which none with their key comes |
| Timeline.SameTimelineIff | components/conversations/workspace/ConversationWorkspace.tsx:11-20 | two lists show the same timeline exactly when they end in the same message for every key |
| Timeline.MergeInStages | components/conversations/workspace/ConversationWorkspace.tsx:36-48 | merging a merged timeline with more, on either side, is merging everything at once |
| Timeline.Workspace.HandleSent | components/conversations/workspace/ConversationWorkspace.tsx:35-37 | a sent message is merged after the others |
| Timeline.SentIsShown | components/conversations/workspace/ConversationWorkspace.tsx:35-37 | a message just sent is shown, whatever was there |
| Timeline.RequestStartsAtOldest | components/conversations/workspace/ConversationWorkspace.tsx:14-42 | once merged, the timeline is asked for what precedes its smallest time, and for nothing exactly when a message without a time comes first: with all times after 1970, when one is shown at all |
| Timeline.Workspace.FinishLoadOlder | components/conversations/workspace/ConversationWorkspace.tsx:43-55 | older messages are merged before the others; the flags after success, emptiness and failure |
| Timeline.LoadedFillsIn | components/conversations/workspace/ConversationWorkspace.tsx:43-48 | older messages replace nothing that is shown under their key |
| Timeline.HistoryIsOneMerge | components/conversations/workspace/ConversationWorkspace.tsx:35-56 | any history of sends and loads is one merge of everything |
| Timeline.InterleavingDoesNotMatter | components/conversations/workspace/ConversationWorkspace.tsx:35-56 | how sends and loads interleave changes nothing |
| Timeline.TimelineConverges | components/conversations/workspace/ConversationWorkspace.tsx:35-56 | for messages that agree on equal keys neither order nor batching changes the timeline |
| Percentile.PercentileIsNearestRank | lib/customer-identity/evaluation.ts:182-187 | the percentile is a value with the nearest-rank numbers of values on either side |
| Percentile.PercentileIsMonotone | lib/customer-identity/evaluation.ts:182-187 | a larger p gives no smaller percentile |
| CountMaps.CountByKey | lib/customer-identity/evaluation.ts:174-180 | the loop computes the counts |
| CountMaps.CountIsMultiplicity | lib/customer-identity/evaluation.ts:174-180 | each count is the number of occurrences, and they total the entries |
| CountMaps.CountExpandRoundTrip | lib/customer-identity/evaluation.ts:455-466 | expanding a record and recounting gives it back, order included |
| CountMaps.RecountIsStable | lib/customer-identity/evaluation.ts:174-180 | counting, expanding and counting again changes nothing |
| CountMaps.RecountIsPointwiseSum | lib/customer-identity/evaluation.ts:455-466 | recounting many expanded records adds them up key by key and in total |
| Evaluation.AnalyzeIsConsistent | lib/customer-identity/evaluation.ts:298-377 | the records of an analysed case add up to its totals |
| Evaluation.CountsOfCase | lib/customer-identity/evaluation.ts:288-303 | one warning more for a phone without normal form, one note more for an unreviewed case that found nobody, no error more |
| Evaluation.WarningRecordsOfCase | lib/customer-identity/evaluation.ts:288-303 | the two records of a case count its warnings by code and by source, the added one included |
| Evaluation.WarningRecordsTotal | lib/customer-identity/evaluation.ts:455-531 | both warning records of the summary total its warnings |
| Evaluation.WarningRecordsAddUp | lib/customer-identity/evaluation.ts:455-531 | for each key the summary counts what the cases counted |
| Evaluation.SeverityCountsTotal | lib/customer-identity/evaluation.ts:461-536 | the re-expanded severities total the messages and agree with warnings and errors |
| Evaluation.StatusCountsTotal | lib/customer-identity/evaluation.ts:437-444 | the six status counts total the cases |
| Evaluation.StatusCountsAre | lib/customer-identity/evaluation.ts:437-444 | each of the six counts is the number of cases with that status |
| Evaluation.LatenciesAreOrdered | lib/customer-identity/evaluation.ts:509-512 | median, 95th percentile and maximum are ordered |
| Evaluation.LatenciesAreNearestRanks | lib/customer-identity/evaluation.ts:509-512 | median, tail and maximum are latencies of cases, with at least half, 19 in 20 and all cases taking no longer |
| Evaluation.ReviewFiguresAre | lib/customer-identity/evaluation.ts:448-451 | matches and flags are counted among the reviewed cases with an expectation |
| Evaluation.PassIff | lib/customer-identity/evaluation.ts:382-548 | `pass` exactly when the run had no errors, a case was reviewed and every case is clean |
| Evaluation.FailIff | lib/customer-identity/evaluation.ts:393-396 | `fail` exactly for errors, a false positive or more than 15 percent false negatives |
| Evaluation.MissedConflictTolerated | docs/customer-identity-validation.md:78-80 | a missed conflict among enough met expectations only warns |
| Evaluation.FlaggedBothWaysIff | lib/customer-identity/evaluation.ts:315-327 | when a case is false positive and false negative at once |
| Evaluation.ExactMatchIff | lib/customer-identity/evaluation.ts:305-314 | a case matches exactly when it was reviewed with an expectation that corrects nothing in the answer; the expectation of an unreviewed case is dropped |
| Evaluation.FlagsIff | lib/customer-identity/evaluation.ts:315-327 | a false positive is a customer found where none or another was expected, a false negative a customer or a conflict missed |
| Evaluation.ExactMatchFlags | lib/customer-identity/evaluation.ts:305-327 | an exact match is never a false negative, and when it is a false positive |
| Evaluation.ExactMatchFailsRun | lib/customer-identity/evaluation.ts:305-396 | an exact match that is a false positive and fails the run |
| UriComponent.DecodeEncode | lib/database-config.ts:39-52 | decoding the encoding of any string gives it back |
| UriComponent.ReadCharIsExact | lib/database-config.ts:39-40 | a character is decoded only from its own UTF-8 octets: no longer form, no surrogate, no stray octet |
| DatabaseUrl.ParseBuilt | lib/database-config.ts:31-54 | for every user and password, and every host and database the parser keeps: the built URL parses exactly for ports up to 65535, into host, port, database and cleaned credentials |
| DatabaseUrl.ParseWritten | lib/database-config.ts:31-42 | a URL written by hand, scheme in any case, credentials, port, query and fragment optional: its details, with 3306 for a port left out or zero |
| DatabaseUrl.DotsCancel | lib/database-config.ts:31-36 | in a path a segment of two dots takes the segment before it along |
| DatabaseUrl.DetailsAreKept | lib/database-config.ts:31-42 | what any URL parses to has a host (a name, or an IPv6 address in brackets) and a database that the parser keeps, a port of 16 bits and clean credentials |
| DatabaseUrl.RebuildReparses | lib/database-config.ts:31-54 | parse, build and parse again loses nothing, for every URL that parses |
| DatabaseUrl.RoundTripIff | lib/database-config.ts:31-54 | for any five parts: getting all of them back is exactly a host and a database the parser keeps, a port from 1 to 65535 and trimmed, non-empty credentials |
| DatabaseHost.BuiltUrlLeadsTo | lib/database-config.ts:31-54 | whatever stands in the place of the host: when the built URL parses, and which database it then leads to |
| DatabaseHost.StaysOnIff | lib/database-config.ts:31-54 | it leads to the database it was built with exactly when the host holds no slash, question mark or hash, or carries a path that spells this database with a question mark or hash behind it |
| DatabaseEnv.TestsStayInTheirDatabase | lib/database-config.ts:112-160 | in test mode every branch answers with `crm_test` or fails; the URL handed out, if it parses, names `crm_test` exactly when it came from a URL variable or the host variable stays on it |
| DatabaseEnv.UrlVariablesComeFirst | lib/database-config.ts:112-132 | `DB_URL` answers before everything, then the connection's own URL unless a single alias is set; in test mode only with the test database |
| DatabaseEnv.DetailsAreTheVariables | lib/database-config.ts:134-160 | otherwise every detail is the trimmed value of its own variable, the alias first, with the defaults for host and port, and the errors say which of database, user and password is blank |
| DatabaseEnv.PasswordVariablesAlone | lib/database-config.ts:134-160 | changing the variables of the password changes no other detail but the URL |
| DatabaseEnv.UserVariablesAlone | lib/database-config.ts:134-160 | changing the variables of the user changes no other detail but the URL |
| DatabaseEnv.HostVariableCanLeaveTests | lib/database-config.ts:134-160 | a host variable that carries a path: the details name `crm_test` and their URL another database |
| DatabaseEnv.OverrideIgnoresUrl | lib/database-config.ts:110-132 | with a local override the connection's own URL variable has no influence |
| DatabaseEnv.PartsUrlReparsesIff | lib/database-config.ts:134-160 | the URL of the parts branch parses to the details beside it, user and password being the trimmed values of their own variables, exactly when the port variable is no integer above 65535 and the parser keeps the host and database variables |
| DatabaseEnv.LargePortBreaksUrl | lib/database-config.ts:12-15 | an environment whose details hold a URL that does not parse |

## Left out

- WorkerPool: the worker's own body, timeouts and `AbortController`; a call settles with a value or a rejection. A concurrency that is not an integer is not modelled.
- Migrations: the SQL itself and its partial effects (a failed script counts as executed and unrecorded), the sorting of file names, `applied_at` and `execution_ms`, and runs that overlap in time. The digest, the folding of keys by the collation and the rows that fit the columns are parameters; truncation by a server that is not strict is not modelled.
- Observations: notes, timeline seeds and metadata of an observation beyond what keys, ranks and status read; `buildSourceMatches`, `buildIdentities`, `buildCustomer` and the warnings, which copy fields.
- Readers: a request and a row are given by their normalised values; which of several columns a value comes from, `normalizeEmail` and `normalizeRut` are not modelled. The rows of a table are whatever the database returned for it. A record id is its text.
- CustomerResolution: reader failures and warnings, `reason`, `customer` and the other fields that copy what is modelled here.
- WhereCompiler: table and column names as quoted text; equality and `LOWER` of the server are parameters. `trim().toLowerCase()` is a parameter as well.
- StatementBuilders: errors raised by the database or the driver (which refuses `undefined`) while a statement runs, defaults of columns an INSERT does not name, values that are dates or buffers; the connection pool and transactions.
- Timeline: `localeCompare` is any strict total order on keys, and times are parsed integers, so a text that `Date.parse` rejects is not modelled. Rendering is left out.
- Percentile: exact rationals in place of floating point, so `(p / 100) * n` has no rounding error.
- CountMaps: entries keep insertion order; the reordering of integer-like keys and keys inherited from `Object.prototype` are not modelled.
- Evaluation: the classification of raw warning texts, case ids and hashes, rates that are plain quotients, and the per-reader latency summary.
- UriComponent: strings with lone surrogates, on which `encodeURIComponent` throws, since a `char` is a Unicode scalar value.
- DatabaseUrl: the parser is that of the URL Standard, for `mysql:` URLs with an authority; it throws for other schemes here. What a text is as a number, and the canonical text of an IPv6 address, are parameters; of the latter it is required that canonical text is its own canonical text.
- DatabaseEnv: connections that are not in the alias table, and the root connection, are not modelled.
- `lib/brain`, `lib/ai`, the outbox and follow-up workers, pages and view models: mostly case analysis over values from other modules.
