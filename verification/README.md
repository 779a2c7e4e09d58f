# Verified model of the market-intelligence store

This project models the parts of the repository in which tables, protocols and fast forms have to agree with
something simpler, and proves that they do. Tables are maps from id to row with the unique indexes as invariants;
an object or a session that the code updates in place is a class whose methods are tied to a specification function
of the old state; the laws are lemmas about those functions, over every input, run or interleaving.

| files | what they model |
|---|---|
| ClaimRollback, ClaimRuns, ClaimWriters, ClaimDeadlock | the lock, count, drop rollback of the classification-claims tables, interleaved with writers and other rollbacks |
| CityPermits, CityPermitLaws, CityPermitHistory, CityPermitCalls, CityPermitReimport | the multi-city permit import: dedupe, blank rows, promotion, keyed batches |
| SurreyPermits, SurreyNumbers, SurreyPermitLaws | the three-tier, identity-preserving Surrey import |
| TenderPresence, TenderPresenceLaws, TenderContent | upsert with presence stamps, missing-from-source counters, closing-time sync, skipped sources |
| RankingQuery, RankingMeaning, RankingLaws | the company-ranking query compiler, a denotation of the SQL it emits, and the naive grouping |
| SqlSplitter, SqlSplitterLaws, SqlBlocks | the dollar-quote-aware, the parity and the naive statement splitters, and the blocks PostgreSQL reads |
| Awards, AwardsReconcile | award indexes, unique resolution and reconciliation |
| ScorePairs, Prescore | the score-pair cache and the bulk pre-scoring loop on top of it |
| Canonical, Growth, GrowthScores, MarketRanking | canonical-company chains, the growth scores and footprint, the activity ranking |
| PredicateText, EnrichmentSchema, EnrichmentLaws, EnrichmentContract | the readiness checks and transactions of migrations 034 and 035 |
| DbSafety, DbSafetyOutcomes | the production guard rails of command-line scripts |
| BudgetLoop, BudgetLimits | the AI budget-estimate loop |
| DbRetry, InitThread | retry with backoff, the nested health check, the background-initialisation thread |
| Percentiles | value percentiles and sector shares |
| Ordered, Text | ids in ascending order, sums over ids, Python's string operations |

`dafny verify dfyconfig.toml` checks everything.

Where the code and its own text disagree, the model follows the code and a lemma gives the exact condition:

- Fingerprints are stripped before the lookup but stored unstripped (db/permit_import.py:54-64), so a padded blank row
  is stored again at every import: `CityPermitReimport.BlankRowImportedTwice`. The multi-city import is not idempotent
  in general: `CityPermitReimport.ReimportIsIdempotentIff`.
- Growth scoring divides by the largest increase (api/market_activity.py:215), which is zero when candidates exist and
  none increased: `Growth.RunRaisesIff`.
- The footprint of a company whose chain ends at a missing company is every unresolved event
  (api/market_activity.py:273-280): `Growth.FootprintOf`.
- The economic part of the activity ranking is announced with weight 25 but exceeds it above the 95th percentile
  (api/main.py:807-809), which takes at least twenty companies: `MarketRanking.RunEconomyIff`, `MarketRanking.TwentiethPasses`.
- Class B on a production URL refuses with the advice to use `--allow-production` and type the phrase, but with the flag
  no phrase is asked for (db/db_safety.py:358-375): `DbSafety.ClassBReturnsIff`.
- The budget loop stops when the rows the database happens to return hold no target, although others remain
  (pipeline/ai_scoring.py:318-340): `BudgetLoop.StarvesIff`, `BudgetLimits.StarvesAtIff`, `BudgetLoop.PricedTendersStarve`.
- Predicate normalisation drops all words after a cast (db/company_enrichment_migration.py:252-260), so a restricted index
  passes for the expected one: `PredicateText.NormalizeKeepsIff`, `EnrichmentLaws.RestrictedIndexConforms`. The foreign-key
  check joins on constraint names that need not be unique (db/company_enrichment_migration.py:316-356), so a missing key can
  be reported present: `EnrichmentLaws.FkExistsWrongIff`, `EnrichmentLaws.FkExistsCanBeMistaken`.
- The ranking compiler accepts requests whose SQL the database rejects: a plain dimension beside a company dimension, and a
  repeated dimension or metric (api/analytics.py:318-468): `RankingLaws.AcceptsIff`.
- The status of the background initialisation is set before its thread starts (db/connection.py:178-191); when starting
  raises it stays at running for good: `InitThread.StrandedIff`.
- The check on constraint definitions is meant to catch a different expression (db/company_enrichment_migration.py:396-418),
  but drops the parentheses that tell one from another: `PredicateText.SameFormIff`, `EnrichmentLaws.RegroupedCheckIsUnseen`.
- The rollback locks the tables in the reverse of the order in which `submit_claim` writes them
  (db/classification_claims_migration.py:184-187, pipeline/registry_engine/claims/gateway.py:570-647), so the two can
  deadlock, and only a failure ends it: `ClaimDeadlock.CanDeadlockIff`, `ClaimDeadlock.SubmitClaimCanDeadlock`.
- The dollar-aware splitter knows no tags with digits (db/company_enrichment_ddl.py:57), which PostgreSQL allows, and cuts
  such blocks: `SqlBlocks.KeepsBlocksIff`, `SqlBlocks.DigitTagIsCut`.
- An empty URL list switches the filter of the closing-time sync off (db/closing_at_sync.py:20-53), while it switches the
  counter sync off altogether: `TenderPresence.Store.SyncClosingAt`.

## Model

| member | source | states |
|---|---|---|
| ClaimRollback.RunKeepsInv | db/classification_claims_migration.py:180-207 | In every interleaving of rollbacks and of writers with any list of reads and inserts (READ COMMITTED), locks never conflict, a rollback past its lock loop holds every table it saw, and its counts stay true until it ends |
| ClaimRollback.CommitDropsOnlyEmptyTables | db/classification_claims_migration.py:180-211 | The committing step of a rollback drops exactly the tables seen at the existence check, each empty at that moment |
| ClaimRollback.CommittedRollbackFoundEveryTableEmpty | db/classification_claims_migration.py:180-211 | The same from any initial state, over any interleaving |
| ClaimRollback.OnlyCommitTouchesTables | db/classification_claims_migration.py:180-211 | No other statement of a rollback, and no failure, changes a table or a row |
| ClaimRollback.CommittedIsFinal | db/classification_claims_migration.py:180-211 | A committed rollback stays committed whatever the others do |
| ClaimRollback.AbortedRollbackChangedNothing | db/classification_claims_migration.py:189-205 | A rollback that ends aborted has left all six tables and their rows as they were, at each of its steps |
| ClaimRollback.NoCommittedRowIsLost | db/classification_claims_migration.py:180-211 | No interleaving of rollbacks and writers loses a committed row |
| ClaimRuns.SoloRollback | db/classification_claims_migration.py:154-213 | Run alone, the statements end with everything dropped if every table is empty and otherwise aborted with nothing changed, with the counts of all six tables |
| ClaimDeadlock.StuckIffWaiting | db/classification_claims_migration.py:180-207 | A transaction that has not ended cannot execute its next statement exactly when somebody else has a lock it needs: in the lock loop a table of the six, in the drop loop companies, which DROP TABLE locks for the foreign key |
| ClaimDeadlock.WaitingGoesForward | db/classification_claims_migration.py:184-187 | A rollback that waits for another rollback is behind it in the common order |
| ClaimDeadlock.RollbacksMakeProgress | db/classification_claims_migration.py:184-187 | Of any set of unfinished rollbacks one can execute its next statement or waits for somebody outside the set: rollbacks never deadlock among themselves |
| ClaimDeadlock.CanDeadlockIff | db/classification_claims_migration.py:180-211 | From any initial state a deadlock can be reached exactly when there is a rollback and some writer has a statement that touches an existing table before all it has touched so far in the order of the rollback; for a writer that has touched companies alone, when moreover every table is empty and one of them references companies |
| ClaimDeadlock.OrderlyNeverStuck | db/classification_claims_migration.py:180-211 | While no writer does that, some transaction can go on in every reachable state with an unfinished one |
| ClaimDeadlock.DeadlockLasts | db/classification_claims_migration.py:180-211 | A deadlock lasts until one of its members fails, and none of its members can go on |
| ClaimDeadlock.SubmitClaimCanDeadlock | pipeline/registry_engine/claims/gateway.py:570-647 | submit_claim inserts the claim before its evidence, against the order of the rollback: the two can deadlock whatever the tables hold |
| ClaimRollback.CountsZeroIffEmpty | db/classification_claims_migration.py:189-202 | The blocking test on counts is the test that every existing table is empty |
| ClaimRollback.Connection.ApplyRollback | db/classification_claims_migration.py:154-213 | The call succeeds exactly when every table is empty, then drops all and reports zero for each of the six; otherwise it changes nothing and reports exactly the non-empty tables with their row counts |
| ClaimDeadlock.FailIff | db/classification_claims_migration.py:180-211 | Any transaction can fail until it has ended, and nothing of it stays: tables, other transactions and their locks are as before |
| ClaimWriters.CommitStoresProgram | pipeline/registry_engine/claims/gateway.py:570-647 | In every reachable state the commit of a writer adds exactly the rows that its program inserts, and drops no table |
| ClaimWriters.OnlyCommitStores | pipeline/registry_engine/claims/gateway.py:570-647 | Until then, and when it fails or meets a dropped table, a writer changes no table |
| ClaimWriters.NoRowAppears | db/classification_claims_migration.py:180-211 | Over any run a row of a table was there at the beginning or is inserted by the program of some writer |
| CityPermits.DedupePermitRows | db/permit_import.py:67-83 | The dict loop computes the recursive dedupe that DedupeKeepsLast characterises |
| CityPermits.PermitStore.UpsertBlanks | db/permit_import.py:124-151 | The loop over blank rows is the blank stage, statement failures included |
| CityPermits.PermitStore.PromoteAll | db/permit_import.py:154-194 | The promotion loop is the promotion stage: promoted count, rows left, failures |
| CityPermits.PermitStore.UpsertBatches | db/permit_import.py:236-294 | The 500-row statements are the keyed stage; a failing statement keeps the earlier ones |
| CityPermits.PermitStore.UpsertCityPermits | db/permit_import.py:236-294 | The whole call, refresh deletion and error exits included, is the import that ImportHolds, RefreshHolds, ImportCounts and RaisesIff describe |
| CityPermitHistory.DedupeKeepsLastOfEachKey | db/permit_import.py:67-83 | A row survives dedupe exactly when it is the last of its key; blank rows also need address and value |
| CityPermitCalls.DedupeKeepsLast | db/permit_import.py:54-83 | In terms of the columns: of the rows with one source and external id, or without one of one source, address, value and applicant up to outer white space, the last survives; without an external id it also needs address and value |
| CityPermitLaws.OneBlankPerPrint | db/permit_import.py:124-151 | Under the invariant a fingerprint lookup has one answer: LIMIT 1 has nothing to choose from |
| CityPermitLaws.OnePerKey | db/permit_import.py:154-194 | Under the invariant (source, external id) finds one row |
| CityPermitLaws.UpsertBlankKeeps | db/permit_import.py:124-151 | A blank row is stored in place of its predecessor exactly when no keyed row has its fingerprint; uniqueness and every identity are kept, and no index raises |
| CityPermitLaws.PromoteKeeps | db/permit_import.py:154-194 | Promotion replaces exactly the blank row and the keyed row that give way to the incoming one, or changes nothing because no blank row does |
| CityPermitLaws.UpsertKeyedKeeps | db/permit_import.py:37-42 | A keyed write that no blank row stands in the way of keeps uniqueness and identity and replaces only the row with its key |
| CityPermitHistory.BlankStageHas | db/permit_import.py:124-151 | What the blank stage leaves stored, row by row: the batch rows whose fingerprint is not keyed, and the old rows none of them replaces |
| CityPermitHistory.PromotingHas | db/permit_import.py:154-194 | What promotion leaves stored: promoted rows, and old rows that give way to none of them |
| CityPermitHistory.KeyedBatchHas | db/permit_import.py:236-294 | What the keyed statements leave stored: all their rows and the old rows with other keys |
| CityPermitHistory.StatementsAreOneBatch | db/permit_import.py:236-294 | Splitting the keyed rows into statements of 500 makes no difference, and each row is counted once |
| CityPermitHistory.StagesHold | db/permit_import.py:236-294 | The final content of the table as one statement about the batch: keyed rows, blank rows not covered by a keyed fingerprint, and old rows that give way to none |
| CityPermitHistory.ImportKeeps | db/permit_import.py:236-294 | A call on stripped, source-tagged rows never raises on an index, keeps uniqueness, and without full refresh keeps every identity |
| CityPermitHistory.ImportHolds | db/permit_import.py:236-294 | The same content statement for a whole incremental call, clamping, dedupe and company resolution included |
| CityPermitHistory.HistoryKeeps | db/permit_import.py:236-294 | Over any history of such calls uniqueness holds; without full refresh no surviving row changes its source, official id or lifecycle columns, keyed rows survive with their key, and new rows start without official id |
| CityPermitHistory.HistoryFromEmpty | db/permit_import.py:236-294 | From an empty table: (source, non-blank external id) is unique, and rows with one stored fingerprint are all keyed |
| CityPermitCalls.RefreshHolds | db/permit_import.py:236-294 | A full refresh stores the attached keyed rows, the blank rows that give way to none of them, and exactly the old rows of other sources |
| CityPermitCalls.RefreshKeepsOthers | db/permit_import.py:246-250 | Every row of another source is kept as it is: id, columns, official id and lifecycle |
| CityPermitCalls.ImportCounts | db/permit_import.py:236-294 | The returned count, refresh or not: the keyed rows of the deduplicated batch and the blank rows no keyed row stands for |
| CityPermitCalls.NewRowsAreScraped | db/permit_import.py:45-83 | Every row that is new after a call holds the clamped columns of a row of the batch, with the company resolved for it |
| CityPermitCalls.RaisesIff | db/permit_import.py:108-294 | A write is refused exactly when it would break one of the two unique indexes |
| CityPermitCalls.HistoryIndexed | db/permit_import.py:236-294 | Both unique indexes hold after any calls on any rows, stripped or not, raising or not |
| CityPermitReimport.BlankRowImportedTwice | db/permit_import.py:54-64 | Importing one blank row twice stores it once exactly when it is source-tagged and has nothing to strip; otherwise it is stored twice |
| CityPermitReimport.ReimportIsIdempotentIff | db/permit_import.py:236-294 | A second incremental import of any safe batch, padded keyed rows included, leaves every row as it is if and only if the first orphaned no blank row: skipped it for a keyed row whose fingerprint it then moved away, with no keyed row of the batch to take it over |
| CityPermitReimport.ReimportChangesNothing | db/permit_import.py:124-294 | Then, with unpadded keyed rows, the second run of the stages leaves even the id counter alone |
| CityPermitReimport.ReimportCanDuplicate | db/permit_import.py:108-151 | A concrete table and batch, a corrected address with an old blank copy, whose second import changes the rows again |
| SurreyPermits.LegacyKey | db/surrey_permit_import.py:108-115 | A key is found exactly for cleaned numbers in the current format, and it is their 16-character prefix |
| SurreyNumbers.CurrentIff | db/surrey_permit_import.py:62-66 | The current format as three pictures: the legacy digits and dashes, one separator that is no letter, digit or dash, and two letters, a letter and a digit, or those and two letters |
| SurreyNumbers.NumberIsCut | db/surrey_permit_import.py:118-175 | The official number is the cleaned external id, cut at 100 characters |
| SurreyNumbers.KeyIs | db/surrey_permit_import.py:108-115 | The key of a row is the first sixteen characters of its stored number: cutting the number and cleaning it again change nothing |
| SurreyNumbers.ValuesAreStored | db/surrey_permit_import.py:118-128 | Every column holds its own scraped text, cleaned and cut at the width of the column |
| Text.CleanSpacesWords | scraper/utils.py:80-83 | Cleaning gives the words of the text, in order, with one blank between any two |
| Text.CleanFixedIff | scraper/utils.py:80-83 | Cleaning leaves alone exactly the texts with single blanks and none at the ends, and always returns one |
| SurreyPermits.Session.Upsert | db/surrey_permit_import.py:164-237 | One row: the outcome that UpsertOneKeeps describes, or the error with the working state unchanged |
| SurreyPermits.Session.UpsertAll | db/surrey_permit_import.py:240-261 | The batch loop with its counters; nothing becomes durable in it |
| SurreyPermitLaws.OneUnbridged | db/surrey_permit_import.py:198-216 | Under the external-id index at most one unbridged row has a legacy key, so the ambiguity error is unreachable |
| SurreyPermitLaws.UpdateKeeps | db/surrey_permit_import.py:137-161 | An update raises exactly for an over-long applicant, and else gives that one row the number, the scraped fields and a known applicant, and leaves its external id, city and other columns |
| SurreyPermitLaws.InsertKeeps | db/surrey_permit_import.py:226-237 | An insert succeeds exactly when its text fits and no row holds its number as external id, and adds one row: number as both ids, scraped columns, Surrey for a missing city, no company |
| SurreyPermitLaws.UpsertOneKeeps | db/surrey_permit_import.py:164-237 | Exactly when and with which error one row raises; otherwise the row with the official number is updated, else the unbridged row whose external id is the 16-character prefix of a number in the current format, and where the table has neither, a row is added |
| SurreyPermitLaws.AmbiguousIff | db/surrey_permit_import.py:198-216 | On any table, indexed or not, the ambiguity error is raised exactly when the number is unknown and two rows have its prefix |
| SurreyPermitLaws.ImportFromKeeps | db/surrey_permit_import.py:240-261 | A batch grows the table by exactly `inserted`, counts every row once, keeps every identity, and never raises the ambiguity or row-count error |
| SurreyPermitLaws.RunKeeps | db/surrey_permit_import.py:240-261 | Over any run of batches, committed or rolled back, official numbers stay unique and never change once set |
| SurreyPermitLaws.ReimportInsertsNothing | db/surrey_permit_import.py:164-261 | A batch that went through inserts nothing the second time |
| SurreyPermitLaws.ReimportChangesNothing | db/surrey_permit_import.py:164-261 | With distinct official numbers the second import leaves the whole table equal |
| TenderPresence.Store.UpsertWithPresence | db/tender_presence.py:75-120 | The batched upsert, with the failing batch keeping the ones before it |
| TenderPresence.Store.SyncMissingFromSourceCounts | db/tender_presence.py:123-146 | Listed rows get zero, all others one more; no URLs, no change; the two returned counts are the listed and the other rows |
| TenderPresence.Store.SyncClosingAt | db/closing_at_sync.py:20-53 | Closing times follow the deadlines of the listed rows, and of all rows when the list is empty |
| TenderPresence.Store.ImportCycle | db/import_csv.py:85-130 | Upsert, counter sync and closing-time sync in this order |
| TenderPresence.Importer.ImportAll | db/import_csv.py:343-389 | A skipped source is untouched and counts zero, the others run one import each; an error ends the call with the sources before it imported and counted and those after it as they were |
| TenderPresenceLaws.HistoryCounts | db/tender_presence.py:75-146 | Over any history: the table holds exactly the URLs ever listed, the counter of each is the number of non-empty, non-skipped cycles since it was last listed, and first_seen_at is that of its first listing |
| TenderPresenceLaws.ImportCounts | db/tender_presence.py:75-146 | One cycle, row by row: membership, counter, first_seen_at and the preserved columns |
| TenderPresenceLaws.UpsertFromMerges | db/tender_presence.py:75-120 | A payload with distinct URLs per batch is accepted in full, touches only its URLs, and preserves first_seen_at and the lifecycle columns |
| TenderPresenceLaws.UpsertFromStops | db/tender_presence.py:92-120 | Otherwise the call raises at the first batch that names a URL twice, and the table is the one the batches before it give |
| TenderPresenceLaws.ImportCloses | db/closing_at_sync.py:20-53 | After a cycle each listed row, or each row when none was listed, closes when its deadline column parses to a time; every other closing time stays |
| TenderPresenceLaws.StatementRefreshes | db/tender_presence.py:64-120 | Column by column: a listed row, found or new, holds the value of its payload, else the default, else NULL; a row found keeps its history, last_seen_at becomes now, and updated_at moves exactly when a content column differs |
| TenderContent.ImportTracks | db/tender_presence.py:64-120 | One cycle: every stored row holds, column by column, what its latest listing brings; last_seen_at is the time of that listing, and updated_at of the last one whose content differed from the one before, or of its insertion |
| TenderContent.HistoryTracks | db/tender_presence.py:64-146 | The same over any accepted history: counter and closing-time syncs never move updated_at |
| TenderPresenceLaws.ImportTimely | db/tender_presence.py:56-120 | A cycle, accepted or not, keeps first_seen_at <= updated_at <= last_seen_at |
| TenderPresenceLaws.HistoryTimely | db/tender_presence.py:56-146 | So does any history of cycles whose clocks do not run backwards |
| RankingQuery.BuildDimensions | api/analytics.py:429-468 | The loop over group-by names emits the select list and the matching PARTITION BY list, and finds out whether the request ranks companies and needs the canonical join; a plain dimension among company dimensions gets an empty name |
| RankingQuery.BuildWhere | api/analytics.py:270-315 | The clauses built hold of exactly the rows that match the geography, province, filters and dates of the request |
| RankingQuery.WhereMeans | api/analytics.py:270-315 | All clauses hold of a row exactly when it matches the request, as a definition on the request alone |
| RankingQuery.BuildMetrics | api/analytics.py:346-368 | Raw columns and outer aggregates; distinct counts are refused |
| RankingQuery.CompileRanking | api/analytics.py:318-468 | The compiler: it emits a query exactly for permits and awards without distinct counts, and names the reason otherwise; RequestIsAnswered says what the query means |
| RankingLaws.NameEvals | api/analytics.py:446-453 | The COALESCE chain is the display name of the canonical company, whether or not the row is canonical itself |
| RankingLaws.GroupKeyIsNaive | api/analytics.py:344-399 | Outer GROUP BY and window PARTITION BY both see the naive key of the row |
| RankingLaws.EvidenceIsPrefix | api/analytics.py:371-399 | The capped ARRAY_AGG returns exactly the smallest 100 ids of the group, or all of them |
| RankingLaws.CompiledIsNaive | api/analytics.py:318-468 | On every database with valid foreign keys the emitted query returns the naive grouping of the request, keys, metrics, counts, evidence and the truncated flag, exactly when the request has only company dimensions and repeats neither a dimension nor a metric other than the count; otherwise the database rejects it |
| RankingLaws.RequestIsAnswered | api/analytics.py:318-468 | In terms of the request: outside permits and awards, or with a distinct count, it is refused with that error; every other ranking request is compiled, and its query returns the naive grouping exactly when the request is nameable |
| RankingLaws.AcceptsIff | api/analytics.py:318-468 | The emitted SQL has no empty and no ambiguous column name exactly for those requests |
| RankingLaws.OneRowPerCanonicalCompany | api/analytics.py:434-456 | Grouped by canonical company, one row per canonical id |
| RankingLaws.NothingIsLost | api/analytics.py:371-512 | Before LIMIT the group counts of an accepted query and the unresolved count add up to all rows that match the request |
| RankingLaws.CountIsGroupSize | api/analytics.py:385-399 | The count shown with a group is the number of its rows in that sum |
| RankingLaws.UnresolvedIsComplement | api/analytics.py:495-512 | The separate unresolved query selects exactly the matching rows the ranking does not attribute |
| SqlSplitter.DollarStatements | db/company_enrichment_ddl.py:60-95 | The line loop with its buffer and tag emits the groups the lemmas below speak about |
| SqlSplitter.ParityStatements | db/track_record_ddl.py:22-51 | The same for the parity splitter |
| SqlSplitterLaws.ScanAcrossLines | db/company_enrichment_ddl.py:66-85 | Scanning line by line carries the same state as scanning the joined text |
| SqlSplitterLaws.LinesScanAsText | db/company_enrichment_ddl.py:66-85 | The state after any lines is the state of the whole text: where the lines end does not matter |
| SqlSplitterLaws.CommentIff | db/company_enrichment_ddl.py:66-69 | A line is a comment exactly when two dashes come first after white space |
| SqlSplitterLaws.TerminatedIff | db/company_enrichment_ddl.py:87-87 | A line ends a statement exactly when only white space follows its last semicolon |
| SqlSplitterLaws.EmittedText | db/company_enrichment_ddl.py:87-95 | The statement of a group is the text of its lines without the white space around it; a blank group gives none |
| SqlSplitterLaws.RenderSums | db/company_enrichment_ddl.py:60-95 | The statements of a file are those of its groups, in order |
| SqlSplitterLaws.DollarKeepsLines | db/company_enrichment_ddl.py:60-95 | No line is lost, invented or moved, other than comments outside blocks |
| SqlSplitterLaws.DollarCutsAtTopLevel | db/company_enrichment_ddl.py:60-95 | Statements end exactly at the first semicolon line outside every block |
| SqlSplitterLaws.EndsOutsideBlocks | db/company_enrichment_ddl.py:60-95 | In the scanner's own reading every statement but the last ends outside all blocks |
| SqlBlocks.NeverCutsInsideABlock | db/company_enrichment_ddl.py:57-95 | In PostgreSQL's reading no statement but the last ends inside a dollar-quoted block, when no tag of the file holds a digit or a character beyond ASCII and no block starts inside an identifier |
| SqlBlocks.KeepsBlocksIff | db/company_enrichment_ddl.py:57-95 | A tag that PostgreSQL accepts keeps every function body between two of it in one statement exactly when its name has only ASCII letters and underscores |
| SqlBlocks.DigitTagIsCut | db/company_enrichment_ddl.py:57-95 | A concrete block with the tag $f1$ that is cut in two, the first statement ending inside the block |
| SqlSplitterLaws.NaiveAgreesWithoutTags | db/classification_claims_ddl.py:22-40 | Where no tag occurs outside comments the naive splitter gives the same statements |
| SqlSplitterLaws.ParityAgreesOnEmptyTags | db/track_record_ddl.py:22-51 | Where every tag is `$$` the parity splitter gives the same statements |
| Awards.BuildAwardIndexes | pipeline/awards_reconciler.py:81-93 | Every index entry is the full scan for its key, in the order of the awards |
| Awards.ResolveUniqueAward | pipeline/awards_reconciler.py:96-120 | The list version equals the resolution of the set of candidates |
| Awards.FindAwardMatch | pipeline/awards_reconciler.py:123-159 | Indexed matching is the full scan: codes first, then title and buyer |
| AwardsReconcile.TenderTable.Reconcile | pipeline/awards_reconciler.py:196-239 | The loop tallies every decision and settles every row: awarded with id, date and confidence of the award that decides it and no longer open, or left as it was |
| AwardsReconcile.ReconcileAwards | pipeline/awards_reconciler.py:242-272 | The three tables against one index, every row settled in the same way; the counters sum to all rows |
| AwardsReconcile.CountersSumToRows | pipeline/awards_reconciler.py:184-239 | The counters of a table sum to its row count |
| AwardsReconcile.CountersMean | pipeline/awards_reconciler.py:196-239 | Each counter is the number of rows with its decision |
| AwardsReconcile.FindInEitherOrder | pipeline/awards_reconciler.py:81-159 | Two indexes built from the same awards in any two orders give the same match |
| AwardsReconcile.ResolveIff | pipeline/awards_reconciler.py:96-120 | An award is chosen exactly when it is the only candidate, or the only one of several dated on or after the close |
| AwardsReconcile.MarkedIff | pipeline/awards_reconciler.py:123-239 | A tender is marked with an award exactly when it is closed, not overridden, and that award alone is decisive among those sharing a code with it, or, when none of those is, among those with its title and buyer; decisive is the only candidate, or the only one of several dated on or after the close |
| AwardsReconcile.ReconciledSettles | pipeline/awards_reconciler.py:176-239 | A row that an award decides ends awarded and closed to bids, with the id of that award, confidence 1.0 and its date, or now for an unreadable one; all other columns, and all other rows, stay |
| AwardsReconcile.DecisionMeans | pipeline/awards_reconciler.py:196-239 | The other decisions: already awarded and not closed by the status, override by a text that is not blank, ambiguous exactly when nothing decides although some award is a candidate |
| AwardsReconcile.SecondRunChangesNothing | pipeline/awards_reconciler.py:196-239 | A second run with the same `now` marks nothing and changes no row |
| ScorePairs.LoadFresh | pipeline/ai_matching.py:520-542 | The cache holds exactly the rows of the company no older than the cutoff, by candidate |
| ScorePairs.MatchStore.ScoreTenderPairs | pipeline/ai_matching.py:417-517 | The candidate loop: pairs, counters and written rows |
| ScorePairs.StatsAddUp | pipeline/ai_matching.py:417-517 | Hits, scored, capped and skipped add up to the candidates, and scored never exceeds the cap |
| ScorePairs.StatsMean | pipeline/ai_matching.py:417-517 | Hits are exactly the candidates with an explained cached row; scored is the smaller of the cap and the number of other scorable candidates; without a cap none is capped |
| ScorePairs.SkippedAndCapped | pipeline/ai_matching.py:417-517 | Skipped candidates cannot be scored, and all such are skipped unless the cap was reached; a candidate is held back only once the cap is used up |
| ScorePairs.PairIs | pipeline/ai_matching.py:417-517 | A returned pair is the cached score on a hit and the scorer's otherwise; a candidate without a pair is no hit, and cannot be scored or was held back |
| ScorePairs.DryRunWritesNothing | pipeline/ai_matching.py:480-512 | Without persist the table stays as it is |
| ScorePairs.CacheIsTransparent | pipeline/ai_matching.py:417-542 | While the explained rows within the cutoff hold the scorer's score, aged-out ones whatever, every returned score is that of direct scoring |
| ScorePairs.TruthIsKept | pipeline/ai_matching.py:417-517 | Any run keeps that premise, for its cutoff and every later one |
| ScorePairs.OthersUntouched | pipeline/ai_matching.py:614-650 | Rows of other companies and other tenders are untouched |
| ScorePairs.UncappedIsComplete | pipeline/ai_matching.py:417-517 | Without a cap the answer holds exactly the candidates cached or scorable |
| ScorePairs.HybridIsDirect | pipeline/ai_matching.py:545-583 | The hybrid score of a scorable candidate is then the scorer's, whatever the rules said |
| ScorePairs.HybridIs | pipeline/ai_matching.py:545-583 | After any run, capped or not: cached score on a hit, the scorer's where the run scored; else the score of a fresh row, and the rule score without one |
| ScorePairs.WarmedRow | pipeline/ai_matching.py:417-517 | What an uncapped persisting run leaves for one candidate: its old row on a hit, else its score, breakdown and reasoning, cut at 4000 characters, stamped now |
| ScorePairs.RewarmScoresNothingIff | pipeline/ai_matching.py:417-542 | Warming again scores and writes nothing exactly when no row the first run left for a candidate has aged out |
| ScorePairs.MarkerIsNeverAHit | pipeline/bulk_prescore.py:45-60 | With or without the tender-0 marker, real tenders are scored alike |
| Prescore.PrescoreTouchesOne | pipeline/bulk_prescore.py:92-155 | Prescoring a company changes no row of another |
| Prescore.NoLongerPending | pipeline/bulk_prescore.py:45-69 | A processed company has a row afterwards, scored or marker |
| Prescore.PendingAfter | pipeline/bulk_prescore.py:63-79 | What is pending after a list of companies is what was pending without them |
| Prescore.PendingSuffix | pipeline/bulk_prescore.py:82-89 | After the first n of the ascending pending list, the next query sees the rest of that list |
| Prescore.PrescoreOneRow | pipeline/bulk_prescore.py:92-155 | The row a prescored company ends with for each tender: its score, or the marker exactly when nothing could be scored, or none |
| Prescore.RunRow | pipeline/bulk_prescore.py:229-280 | Every company of a run ends with the rows prescoring it alone gives |
| Prescore.Runner.RunBulkPrescore | pipeline/bulk_prescore.py:229-280 | The batch loop terminates; it processes a prefix of the ascending pending list, all of it without a batch cap and min(pending, cap * batch size) with one; totals and the number of batches are exact |
| Prescore.TallyMeans | pipeline/bulk_prescore.py:158-173 | Processed is the number of companies, scored the number of those with rule candidates, skipped the others |
| Prescore.UncappedRun | pipeline/bulk_prescore.py:229-280 | Without a cap: nothing pending, every pending company processed once in ascending order, a final table that does not depend on the batch size, and no earlier row changed |
| Canonical.Follow | api/market_activity.py:131-147 | The chain loop stops on every finite graph: at the end of the chain, or because the chain cycles |
| Canonical.EndIsUnique | api/market_activity.py:131-147 | A chain has one end |
| Canonical.CyclesMeansNoEnd | api/market_activity.py:131-147 | A chain that repeats a node reaches no end |
| Canonical.CanonicalMap | api/market_activity.py:108-148 | A raw id is bound exactly when its chain does not cycle, to the company at its end, or to nothing when that company does not exist |
| Canonical.CanonicalId | api/main.py:728-742 | The ranking returns the end of the chain over loaded companies exactly when it is loaded |
| Canonical.EndsAreChains | api/market_activity.py:131-147 | The end of a chain in terms of the tables: a list of companies, each sent to the next by its alias, or by its merge where it has no alias, that cannot be made longer; the map reads every company, the ranking only raw ids |
| Canonical.MapFollowsChains | api/market_activity.py:108-148 | The map binds exactly the ids with such a list, to the company it leads to |
| Canonical.RankingAgreesIff | api/main.py:728-742 | The ranking resolves to a company exactly when the full chain ends there and never leaves the raw ids |
| Canonical.RankingImpliesMap | api/market_activity.py:108-148 | Whenever the ranking returns a company the map returns the same, also when built for more raw ids |
| Growth.GroupEvents | api/market_activity.py:160-173 | The grouping loop, with the unresolved counter |
| Growth.WindowsHold | api/market_activity.py:160-173 | A company's windows hold exactly its events of each window, in order; companies without any have no group |
| GrowthScores.WindowCounts | api/market_activity.py:155-173 | Each event of a company is in its current window as often as collected exactly when dated within the lookback up to today, and in the previous one exactly when within the lookback before that |
| GrowthScores.UnresolvedCounts | api/market_activity.py:165-169 | The unresolved events are exactly those whose raw company has no canonical company |
| Growth.EventsConserved | api/market_activity.py:160-173 | Every event is unresolved, out of both windows, or in exactly one window of one group |
| Growth.CandidatesIff | api/market_activity.py:173-180 | With a positive minimum listing never fails, and lists exactly the rows of the known companies with enough current events |
| Growth.RunRaisesIff | api/market_activity.py:173-228 | The scoring of a run divides by zero exactly when a company qualifies and none that does has more current than previous events |
| Growth.SteadyCompanyRaises | api/market_activity.py:151-228 | Concrete events on which it does: one company, as active as before |
| Growth.CandidateIsBounded | api/market_activity.py:181-214 | Recency lies in [0, 1] and the value increase is not negative, for windows that come from grouping |
| GrowthScores.CandidateIs | api/market_activity.py:181-214 | The row of a company: both counts, relative increase over the previous count or one, the share of the lookback left at its latest event, and the increase in value if any |
| Growth.ScoreCandidates | api/market_activity.py:215-228 | Scoring raises a division by zero exactly when there are candidates and none increased |
| Growth.ScoreBands | api/market_activity.py:215-228 | The four parts stay within 45, 25, 20 and 10 and the sum within 0 and 100; the largest increases score 45 and 10 |
| GrowthScores.ScoreIs | api/market_activity.py:215-226 | The four parts in proportion to the largest increases of the run, growth capped at a relative increase of three; the shown score is their rounded sum |
| Growth.ScoresOfRunInBand | api/market_activity.py:151-228 | The same for every score of every run, from events to scores |
| Growth.RankingIsDetermined | api/market_activity.py:227-234 | Any two lists that sorting may give for the same companies, grouped in any two orders, are equal: the key leaves no tie to the order of the groups |
| GrowthScores.ListingDescends | api/market_activity.py:227-234 | In a listing score, increase and activity fall in this order of precedence, and the company id rises |
| Growth.FootprintOf | api/market_activity.py:266-280 | The footprint selects the events whose chain ends at the company's own end; every unresolved event when that end is a missing company; nothing when its chain cycles |
| MarketRanking.Merge | api/main.py:744-768 | The merging loop, with the unresolved counter |
| MarketRanking.ActivitiesConserved | api/main.py:744-768 | Every activity is unresolved or counted once, as a permit or an award of one company |
| MarketRanking.ItemHolds | api/main.py:744-768 | A company is ranked exactly when it has activities, with their counts by kind, total value and latest date |
| MarketRanking.P95IsNearestRank | api/main.py:788-793 | The percentile is the least listed value that at least 95 in 100 of the values do not exceed |
| MarketRanking.ScoreItem | api/main.py:800-810 | Scoring raises a domain error exactly when a total of at most -1 meets a positive percentile |
| MarketRanking.PartsBounds | api/main.py:800-810 | Volume and recency keep their bounds and diversity is 20 exactly with both kinds, else 10; the economic part exceeds 25 exactly for values above a positive percentile |
| MarketRanking.PartsAre | api/main.py:800-811 | The four parts as shares: logarithm of the activities against the busiest company, of the value against the percentile, days left of the lookback, and both kinds |
| MarketRanking.RunEconomyIff | api/main.py:788-810 | Some company of a run exceeds 25 exactly when the largest value of the run lies above a positive 95th percentile of its values |
| MarketRanking.FewCompaniesStayWithin | api/main.py:788-810 | With fewer than twenty companies none does |
| MarketRanking.TwentiethPasses | api/main.py:744-810 | With twenty one can: a run from its activities |
| MarketRanking.ListingIsDetermined | api/main.py:845-852 | Any two lists that sorting may give, whatever the order in which companies were merged, are equal |
| MarketRanking.ListingDescends | api/main.py:845-852 | In a listing score and activity fall in this order of precedence, and the company id rises |
| PredicateText.CastSwallowsTheRest | db/company_enrichment_migration.py:252-260 | Every word after a cast vanishes up to the next parenthesis: with a further conjunct there, a predicate has the normal form of the one without |
| PredicateText.LowerIs | db/company_enrichment_migration.py:252-260 | Capitals become small letters, and nothing else changes |
| PredicateText.NormalizeKeepsIff | db/company_enrichment_migration.py:252-260 | The normal form is the one that drops type names alone, those of several words included, for every text, exactly when no type name of a cast is followed by a blank and a word |
| PredicateText.PrintedIsTakenForPlain | db/company_enrichment_migration.py:252-260 | A predicate as the database prints it, restricted to verified rows, has the normal form of the unrestricted one |
| PredicateText.ParensDoNotMatter | db/company_enrichment_migration.py:255-260 | Without casts, a parenthesis anywhere makes no difference to the normal form |
| PredicateText.SameFormIff | db/company_enrichment_migration.py:252-260 | Two texts have one normal form exactly when, casts removed, they have the same lower-case words in the same order, parentheses counting for nothing |
| EnrichmentSchema.CheckIndexes | db/company_enrichment_migration.py:528-536 | The index loop reports the non-conforming indexes of a table |
| EnrichmentSchema.Engine.Apply034 | db/company_enrichment_migration.py:602-642 | Whatever the DDL does, a commit happens exactly when the result fully conforms and both tables are empty; an error leaves the schema unchanged |
| EnrichmentSchema.Engine.Apply035 | db/company_enrichment_migration.py:795-842 | Likewise for 035, exactly when 034 was fully applied and the result fully conforms; rows are allowed |
| EnrichmentLaws.Readiness034Means | db/company_enrichment_migration.py:470-583 | FULLY_APPLIED means the declared contract of both tables, NOT_APPLIED that neither exists, and violations are non-empty exactly for CORRUPT |
| EnrichmentLaws.ReadinessPhase3Means | db/company_enrichment_migration.py:674-792 | Phase 3 is FULLY_APPLIED exactly when 034 is and its own contract holds; NOT_APPLIED and CORRUPT likewise characterised |
| EnrichmentContract.AppliedIsContract | db/company_enrichment_migration.py:470-583 | The contract of 034 written out, columns, five indexes with their conditions, foreign keys as the views show them and two checks: fully applied exactly when it holds, not applied exactly when neither table is there |
| EnrichmentContract.ReportNames | db/company_enrichment_migration.py:470-583 | Exactly which violations the report names: each missing table, each table with its missing and its unexpected columns, each index, foreign key and check that is not as it should be |
| EnrichmentContract.LaterReportIs | db/company_enrichment_migration.py:674-792 | The report of 035 in terms of both contracts written out, with exactly the violations it names |
| EnrichmentLaws.Phase3IsInvisibleTo034 | db/company_enrichment_migration.py:151-169 | 034 reports the same status and violations for schemas that differ only in Phase 3 parts |
| EnrichmentLaws.AddingPhase3IsUnseen | db/company_enrichment_migration.py:470-583 | In particular after adding any subset of the Phase 3 columns, the function and any Phase 3 constraints |
| EnrichmentLaws.RunLeavesContract | db/company_enrichment_migration.py:602-842 | Over any run of applies with any DDL: nothing committed means nothing changed, anything committed leaves 034 fully applied |
| EnrichmentLaws.CommitConforms | db/company_enrichment_migration.py:795-842 | A committed 035 leaves both contracts satisfied |
| EnrichmentLaws.FkExistsWrongIff | db/company_enrichment_migration.py:316-356 | The joined views answer wrongly for a table exactly when it has no such key and a foreign key on it shares its name with constraints that supply both columns; a real key is never missed |
| EnrichmentLaws.FkExistsIffReal | db/company_enrichment_migration.py:316-356 | With unique constraint names they find exactly the foreign key asked for |
| EnrichmentLaws.FkExistsCanBeMistaken | db/company_enrichment_migration.py:316-583 | A schema with everything else in place that is reported FULLY_APPLIED without violations although jobs.company_id has no foreign key |
| EnrichmentLaws.IndexWithMoreConjunctsConforms | db/company_enrichment_migration.py:304-313 | An index conforms whatever words follow a cast in its predicate, up to the next parenthesis |
| EnrichmentLaws.RestrictedIndexConforms | db/company_enrichment_migration.py:304-313 | The first expected index of 034, restricted to verified rows and printed as the database prints it, conforms |
| EnrichmentLaws.RegroupedCheckIsUnseen | db/company_enrichment_migration.py:396-418 | The verified-evidence CHECK with its parentheses regrouped to another formula passes, and Phase 3 is reported applied as before |
| DbSafety.Guard.AuthorizeClassD | db/db_safety.py:255-328 | URL, log and outcome of an authorisation, every refusal included |
| DbSafety.Guard.BeginScriptGuard | db/db_safety.py:331-415 | The startup guard for all four classes |
| DbSafety.Guard.RequireRuntimeClassD | db/db_safety.py:418-437 | The runtime escalation |
| DbSafety.Guard.GuardDestructiveDb | db/db_safety.py:464-494 | The destructive guard, on a new or an existing context |
| DbSafety.RunKeepsInv | db/db_safety.py:255-494 | Over every run that has not exited: Class D rights on a production DATABASE_URL were confirmed and logged for that URL, and the effective class is never below the nominal one |
| DbSafety.LogsOnlyConfirmed | db/db_safety.py:176-185 | A call logs nothing, or one operation on the production URL that was confirmed in that call |
| DbSafety.LogHoldsProductionOnly | db/db_safety.py:255-328 | In every run the log only grows, by operations on the production URL |
| DbSafety.GuardedReturnIsConfirmed | db/db_safety.py:331-494 | A class C or D guard returns a production URL exactly when production was allowed, having confirmed and logged it in that very call |
| DbSafetyOutcomes.ConfirmedIff | db/db_safety.py:218-252 | Confirmation is the phrase itself with nothing but white space around it |
| DbSafetyOutcomes.AuthorizeIff | db/db_safety.py:255-328 | Class D goes on exactly with a local DATABASE_URL without the flag, or with the flag, a production URL and the phrase; which URL is then in place, what is logged, and which refusal each other case gives |
| DbSafetyOutcomes.BeginABIff | db/db_safety.py:331-375 | Classes A and B ask and log nothing: outcome, URL and context in every case |
| DbSafetyOutcomes.BeginCIff | db/db_safety.py:377-404 | Class C with the flag is decided as class D but without its rights, and without the flag only a local URL will do |
| DbSafetyOutcomes.BeginDIff | db/db_safety.py:406-415 | A class D start leaves the rights of class D exactly when it is granted |
| DbSafetyOutcomes.RequireIff | db/db_safety.py:418-437 | An escalation passes without a context, with rights already given, or when class D is granted now; context, URL and log in every case |
| DbSafetyOutcomes.DestructiveIff | db/db_safety.py:464-494 | The destructive guard is decided by its own flag and opens or completes the context |
| DbSafety.ClassBReturnsIff | db/db_safety.py:358-375 | Class B returns exactly when a URL is set that is local or allowed; it never asks and never logs |
| DbSafety.NotAskedAgain | db/db_safety.py:418-437 | After one successful escalation, later ones under the same context pass unasked and change nothing |
| DbSafety.EffectiveNeverFalls | db/db_safety.py:418-494 | Until the next script guard the effective class never falls and an authorisation stays |
| BudgetLoop.ValueIsEmptyIff | pipeline/ai_scoring.py:37-46 | A value counts as given exactly when it has a non-zero digit and no two dots |
| BudgetLoop.TargetIff | pipeline/ai_scoring.py:318-340 | Of the rows the query returns the loop tries exactly those without such a value |
| BudgetLoop.Store.PickTargets | pipeline/ai_scoring.py:326-337 | The scan of one answer: at most `remaining` targets, none seen before, and all of them unless that many were found |
| BudgetLoop.Store.EstimateBudgets | pipeline/ai_scoring.py:307-361 | For every order and choice of rows the loop terminates as the run whose laws follow; it attempts each tender at most once and only eligible ones, changes exactly the successful ones, returns at most the limit, and gives up only on an answer without untried targets |
| BudgetLoop.AttemptedRow | pipeline/ai_scoring.py:342-359 | Attempts change the budget of the attempted rows whose estimate succeeded, and nothing else |
| BudgetLoop.CanGiveUpIff | pipeline/ai_scoring.py:318-340 | While targets are untried, some answer can end the loop exactly when the other rows without budget are enough to fill it |
| BudgetLoop.StarvesIff | pipeline/ai_scoring.py:307-361 | Some batch limit and some choice of answers leave an eligible tender untried below the limit exactly when four other rows without budget are priced or have an estimate that fails |
| BudgetLimits.StarvesAtIff | pipeline/ai_scoring.py:307-361 | For every batch limit the exact condition before the call: with m what is left of the limit after the other tenders whose estimate succeeds, but at least one, either m other estimates fail and those and the priced rows are 4m, or the priced rows and fewer other targets than the limit fill the first answer |
| BudgetLoop.StarvedByBlockers | pipeline/ai_scoring.py:307-361 | Any run that leaves it untried has four such rows for each estimate the limit still allows |
| BudgetLoop.CanStarve | pipeline/ai_scoring.py:307-361 | With four of them, the run of the database that keeps answering with them |
| BudgetLoop.PricedTendersStarve | pipeline/ai_scoring.py:307-361 | A concrete table: four priced tenders, and a run that never tries the fifth |
| DbRetry.Stop | db/connection.py:242-270 | The attempt at which the loop ends: everything before it was retriable, and it is the limit or not retriable |
| DbRetry.RunWithDbRetry | db/connection.py:242-270 | For every pattern of failures: each call before the last failed in a way that is retried, the last one succeeded, failed otherwise or was the last allowed; its value or error is the result; one wait after every other call |
| DbRetry.BackoffDoubles | db/connection.py:238-239 | Each wait is twice the one before, up to the cap |
| DbRetry.TotalWait | db/connection.py:242-270 | The waits add up to at most (retries - 1) times the cap |
| DbRetry.CheckDbConnection | db/connection.py:340-368 | The nested loops: pings sent, the answer of the last one, and the waits of the outer loop |
| DbRetry.WorstCaseIff | db/connection.py:340-368 | At most outer * inner pings, reached exactly when every ping but the last of all is a transient failure |
| InitThread.TruncateError | db/connection.py:127-130 | At most 500 characters, and short messages unchanged |
| InitThread.RunKeepsInv | db/connection.py:154-191 | In every interleaving of callers and threads, starts that raise included, the lock has one holder, at most one thread is live, only while the status is running, and errors match the status |
| InitThread.AtMostOneThread | db/connection.py:178-191 | From the start at most one thread is live, and one is exactly while the status is running, unless a needed start raised |
| InitThread.CallRuns | db/connection.py:178-191 | A call nothing comes between leaves a running or complete initialisation alone, and otherwise marks it running and starts a thread, unless starting raises |
| InitThread.ThreadRuns | db/connection.py:154-176 | A thread nothing comes between ends complete without an error, or failed with the shortened error |
| InitThread.StrandedIff | db/connection.py:178-191 | The status stays at running without a thread exactly when some needed start raised |
| InitThread.StrandedIsAbsorbing | db/connection.py:178-191 | From then on no caller changes it or starts a thread |
| InitThread.CompleteIsAbsorbing | db/connection.py:178-191 | Once complete the status stays and no thread is ever started again |
| InitThread.NeverStuck | db/connection.py:154-191 | In every reachable state some caller or thread can move |
| Percentiles.PercentilesAreOrderedMembers | pipeline/business_attributes.py:192-203 | Each percentile is one of the positive values, p25 <= p50 <= p75 <= max, and max is the largest; all zero without positive values |
| Percentiles.PercentilesAtQuarters | pipeline/business_attributes.py:192-203 | In any ascending listing of the positive values the percentiles stand at the quarter positions, rounded |
| Percentiles.RoundQuarterIsNearest | pipeline/business_attributes.py:199-201 | Rounding goes to a nearest integer, and to the even one of two |
| Percentiles.PercentilesIgnoreOrder | pipeline/business_attributes.py:192-203 | Input order does not matter |
| Percentiles.CountedTally | pipeline/business_attributes.py:184-189 | The count of a sector is the number of texts inferred to be of it |
| Percentiles.SectorsDistinct | pipeline/business_attributes.py:184-189 | One share for each distinct sector |
| Percentiles.DistributionSumsToOne | pipeline/business_attributes.py:184-189 | The rounded shares sum to one within 0.0005 for each distinct sector |

## Left out

Modelling choices:

- `LIMIT 1` without `ORDER BY` is the least id; under the invariants proved there is only one candidate.
- Time is an integer. `now` is constant within one statement, one scoring run or one prescore run.
- Ids from sequences have no gaps after failed inserts; `scraped_at` and other columns nobody decides on are not modelled.
- The company resolver, the deterministic scorers, the Discover rule scan (with its sort and pair limit), `parse_closing_at`,
  `infer_sector`, solicitation-code extraction, award-date parsing, `log1p`, `round`, ILIKE, UPPER and the SQL casts are
  parameters, with the few properties a lemma names as its premise.
- Floating point is `real`: the products `n * 0.95` and the score arithmetic are exact.
- Digits are ASCII digits in the Surrey number format and in budget values; letters are ASCII in predicate texts; white
  space is Python's set up to U+00A0.
- DDL effects of a rollback become visible at its commit, and nobody creates one of the six tables meanwhile. Locks are shared
  or exclusive, on the six tables and on `companies`; the reads of a foreign key are statements of the writer. Waiting has
  no time limit: a deadlock that the database breaks is a failure of one member.
- Quotation marks and comments inside a statement are not read when blocks are looked for, neither by the splitter nor in
  the reading of PostgreSQL that it is compared with.
- Of the ways in which a database can reject the ranking query only empty and ambiguous column names are modelled.
- A background thread that ends without an `Exception`, and one that is killed, are not modelled.
- Tables, columns, indexes and checks of migrations 034 and 035 are enumerated by constructors that stand for their SQL names;
  column nullability is not part of the contract the code checks and not modelled.
- The growth and activity rankings are proved to be determined by their sort keys; the sort itself and the display fields are
  not modelled.
- `resolve_hybrid_tender_score` is modelled for the scores and not for the reasons it returns.

Not modelled:

- HTTP routes, authentication, mail, chat, voice and language-model calls; KG dual writes, logging, telemetry and sleeping.
- The creation of companies by the resolver, and permits of cities outside the two importers.
- The non-ranking aggregate and record queries of api/analytics.py, `validate_allowlist`, ORDER BY and LIMIT of the ranking.
- The apply side of the classification-claims migration, its schema contract and the sibling migrations: the same
  apply-and-verify shape as 034.
- `_score_table`, whose loop handles each row of one answer once.
- Early-signal import, contract-award matching, BD recommendations, company intelligence, morning and canonical briefs.
- Geographic reach, specialisation confidence and deal-size bands: one expression each.
