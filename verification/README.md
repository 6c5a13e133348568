# Singularmem: a verified model

Singularmem keeps memory items in one SQLite file, with search indexes beside it as rebuildable
sidecars. This project models the parts of it that are algorithms or state machines and proves what
they are for; `dafny verify dfyconfig.toml` checks it all (Dafny 4.11).

| file | what it models |
|---|---|
| `Schema.dfy`, `OpenProtocol.dfy` | the schema of each format version, the bootstrap and migration transactions, and any number of processes opening one file at once, interleaved statement by statement, with faults and crashes anywhere |
| `Items.dfy`, `Table.dfy`, `Revisions.dfy`, `Store.dfy`, `Records.dfy`, `StoreLaws.dfy` | item validation, the append-only items table and its transactions, walks along supersedes links, the store as a class whose operations run between other processes' commits, what its writes record, and when and why they fail |
| `Hook.dfy`, `Agreement.dfy` | index hooks with arbitrary faults, the lexical sidecar as committed, pending and visible documents, rebuilding, and how far sidecar and store agree over whole runs |
| `Driver.dfy`, `DriverLaws.dfy`, `Idempotence.dfy`, `Outcome.dfy`, `Rerun.dfy`, `RunErrors.dfy`, `Interleaved.dfy` | the idempotent ingest driver: deduplication, replacement by hash, batching, conflict retry, item-by-item fallback; what a run leaves in the table, when a second run has nothing to do, when a run fails, and what a run guarantees among other writers |
| `Chunk.dfy`, `Text.dfy`, `TextLaws.dfy` | paragraph packing and hard splitting at UTF-8 boundaries |
| `Scope.dfy`, `ScopeLaws.dfy` | scope paths and the three implementations of one filter |
| `Json.dfy`, `HookCommand.dfy`, `HookConfig.dfy`, `HookConfigLaws.dfy` | the editor hook commands and the edit of an insertion-ordered JSON config, with its inverse and the configs it writes |
| `Fusion.dfy`, `Time.dfy`, `Wakeup.dfy`, `Claude.dfy`, `Metrics.dfy` and a `...Laws.dfy` for each | rank fusion, timestamp rendering, wake-up selection and rendering, the Claude adapter, benchmark metrics |

## How the model is built

Code that updates state or loops is a method or a class method, proved equal to a function of its
inputs and the old state (`Store.Store.IngestMany` against `Store.IngestedMany`, `Driver.IngestSource`
against `Driver.SourceIngested`, and so on); the laws are then lemmas about those functions, over all
inputs, all runs, and all surroundings.

A specification function may itself be wrong, so each is also tied to a law that does not mention it:
its result is written out in literals, read off the input position by position, or shown to be the only
one of its kind. The files named `...Laws.dfy`, `Records.dfy` and `Outcome.dfy` hold those laws.

- A Rust `str` is a sequence of Unicode scalar values; byte lengths and byte offsets are computed from
  the UTF-8 width of each. White space is the Unicode property, written out.
- An item id is a natural number; minting one takes the clock and a random stream. Clock, random bytes,
  hook outcomes and other processes' transactions are parameters (`Store.Surroundings`), so every law
  that does not restrict them holds for all of them.
- An SQLite transaction is all or nothing. Before each of the driver's reads and transactions, and
  between the reads of a walk along supersedes links, other processes may commit any transactions of
  their own.
- Instants are nanoseconds since 1970; scores are real numbers; machine integers are unbounded, which
  no count here comes near.

## Results that are not what one would first write down

- `merge` is documented as idempotent. It is, exactly when the binary path holds no double quote
  (`HookConfig.MergeIsIdempotent`); `remove` undoes it exactly for the configs of
  `HookConfig.Restorable`.
- Running a source again does nothing, provided the first run did not read the clock before 1970: a
  batch refused for its timestamp counts as failed items, which a later run then writes. With the clock
  steady during each run, `Rerun.WhenSecondRunDoesNothing` says exactly when the second has nothing to
  do; `Idempotence.EarlyClockDefersItems` is the case where it has.
- `ingest_source` is documented to return `Err` only for store-level failures and to count items that
  break a rule. It does not: a replacement that breaks a rule ends the run
  (`RunErrors.InvalidReplacementEndsRun`), as does a new item that supersedes an unknown item
  (`RunErrors.DanglingSupersedesEndsRun`), or valid content that begins with U+0000, which the table's
  own check takes for empty (`RunErrors.RefusedContentEndsRun`). `RunErrors.WhenRunSucceeds` says
  exactly when a run succeeds, `RunErrors.EveryErrorHasACause` what every error comes from.
- `docs/formats/store-v1.md` to `store-v3.md` say text order of `created_at` is time order;
  `store-v4.md:121-125` says it is so only to the second, and that is what holds:
  `Time.WhereDisplayOrderFails` says exactly which instants missort, and `Wakeup.WhenShownAreNewest`
  exactly when a wake-up shows the newest items; `Wakeup.OneOfTwo` is the smallest case.
- LIKE ignores ASCII case and the Rust predicate does not, so on paths and scopes that are not
  normalised the two filters can differ: `Scope.WhenFiltersDiffer` says exactly where, and
  `Scope.WhichFiltersAgree` for which paths they never do. On normalised ones they agree.
- `set_scope` tells no hook, so the index disagrees with the store afterwards unless the scope was
  already that one (`Agreement.RescopingDisagrees`); a rebuild repairs that, and every other way the
  two can come apart (`Agreement.RebuildRepairs`).

## Model

| member | source | states |
|---|---|---|
| Schema.Connection.RunMigration | crates/singularmem-core/src/schema.rs:190-225 | the guarded migration transaction, with a failure possible at every SQLite call: success means exactly the whole task happened (or was not needed), any error leaves the file as it was |
| Schema.Connection.ApplyCurrent | crates/singularmem-core/src/schema.rs:251-304 | the same for the bootstrap of an empty file |
| Schema.Connection.Open | crates/singularmem-core/src/store.rs:221-247 | the writable version dispatch runs the planned transactions in order and stops at the first error |
| Schema.ExecuteBatch | crates/singularmem-core/src/schema.rs:212-215 | a batch of DDL yields the catalog of all its statements, or nothing when one is refused or faults |
| Schema.FirstDdl | docs/formats/store-v1.md:26-53 | the version 1 DDL, as the format document gives it, builds the version 1 catalog that migrations start from, written out in full |
| Schema.FreshDdl | crates/singularmem-core/src/schema.rs:72-142 | the one-step DDL of a new store builds the version 4 catalog, every column, constraint and index of it written out, from nothing |
| Schema.GraphDdl | crates/singularmem-core/src/schema.rs:30-67 | the version 3 to 4 DDL, which lists its own statements, turns the version 3 catalog into that same version 4 catalog |
| Schema.ScopeDdl | crates/singularmem-core/src/schema.rs:16-19 | the version 2 to 3 DDL turns the version 2 catalog into the version 3 catalog |
| Schema.ExternalIdDdl | crates/singularmem-core/src/schema.rs:9-12 | the version 1 to 2 DDL turns the version 1 catalog into the version 2 catalog |
| Schema.TaskReachesTarget | crates/singularmem-core/src/schema.rs:150-225 | from each version, the transaction for it succeeds and leaves exactly the schema and version it aims at |
| Schema.TaskSkipsOtherLevels | crates/singularmem-core/src/schema.rs:199-208 | a transaction whose version was overtaken changes nothing and succeeds |
| Schema.PlanIsPlanFrom | crates/singularmem-core/src/store.rs:222-241 | the dispatch plans one transaction for each version still missing |
| Schema.OpenAloneReachesCurrent | crates/singularmem-core/src/store.rs:221-247 | from an empty file or any supported version, whichever path is taken, an open ends at exactly the version 4 schema and keeps the recorded creation time |
| Schema.OpenRefusesUnknown | crates/singularmem-core/src/store.rs:199-247 | a writable open refuses exactly the versions it does not know and leaves such a file alone; a read-only open accepts exactly version 4, and which error it gives for every other |
| OpenProtocol.StepKeepsInv | crates/singularmem-core/src/schema.rs:190-304 | every step of every opener keeps the invariant that ties file, version, lock, plans and working copies together |
| OpenProtocol.EveryRunIsSafe | crates/singularmem-core/src/store.rs:199-247 | for any number of openers, any interleaving, faults and crashes: the schema is always that of the recorded version, whoever opened successfully did so at version 4, and nobody ever meets "table already exists" |
| OpenProtocol.VersionNeverDecreases | crates/singularmem-core/src/schema.rs:190-225 | over any run the recorded version only grows, and so does the log of commits |
| OpenProtocol.EachTransactionAtMostOnce | crates/singularmem-core/src/schema.rs:199-208 | in any run each migration, and the bootstrap, commits at most once |
| OpenProtocol.EveryRunIsSerial | crates/singularmem-core/src/schema.rs:190-304 | whatever the interleaving, the file is what its committed transactions leave when run one after another on the starting file |
| OpenProtocol.StepOnFile | crates/singularmem-core/src/schema.rs:224-225 | a step changes the file only by committing one whole transaction whose guard held on the file as it was |
| OpenProtocol.CommitIsAtomic | crates/singularmem-core/src/schema.rs:193-225 | what a commit publishes is the whole transaction run on the file as it is at that moment, however many steps other openers took meanwhile |
| OpenProtocol.NewcomerCanOpen | crates/singularmem-core/src/schema.rs:251-304 | from any point of any run with the lock free, a newcomer running alone opens the store, so no crash wedges it |
| OpenProtocol.CrashFreesLock | crates/singularmem-core/src/schema.rs:195-197 | a crash of the lock's holder frees it and leaves the file alone |
| Items.SortedTagsMeaning | crates/singularmem-core/src/item.rs:138-255 | stored tags are strictly increasing and exactly the given ones |
| Items.ValidItems | crates/singularmem-core/src/item.rs:138-255 | an item is valid exactly within the limits, each written out: 1 byte to 1 MiB of content, 256 bytes of source, 512 of external id, an object as metadata, tags of 1 to 64 bytes, no NUL, a scope that is normal once trimmed and lowered |
| Items.FirstRuleBroken | crates/singularmem-core/src/item.rs:138-222 | the field named by the error is the first broken one in the order of the checks |
| Items.MintMeaning | crates/singularmem-core/src/ingest.rs:411-424 | a clock before 1970 is refused, to the millisecond; else the lower 80 bits of an id are the random ones and the upper 48 the milliseconds |
| Items.LaterIdsAreGreater | crates/singularmem-core/src/ingest.rs:411-424 | until the 48 bits of milliseconds wrap, a later millisecond makes a greater id, whatever the random bits |
| Records.IngestRecords | crates/singularmem-core/src/ingest.rs:73-92 | a stored item's content, source, metadata and external id are the given ones, its time the clock's reading, its tags the given ones in increasing order, its scope none if none was given and else the trimmed lower-case form, which is normal |
| Records.ReplacementRecords | crates/singularmem-core/src/ingest.rs:225-275 | the same for a successor, which supersedes the row it replaces |
| Records.BatchRecords | crates/singularmem-core/src/ingest.rs:108-202 | the same for a batch, row by row, all with one reading of the clock |
| Records.RescopeRecords | crates/singularmem-core/src/ingest.rs:289-307 | a changed scope is stored in the same normal form and nothing else of the row changes |
| Records.RunsKeepForm | crates/singularmem-core/src/ingest.rs:341-381 | in every table that store operations and the transactions of other such stores reach, tags are increasing and scopes normal |
| Records.FiltersAgreeOnTables | crates/singularmem-core/src/scope.rs:126-155 | so on every row of such a table the three scope filters agree, for every normal path |
| Table.InsertAllAppends | crates/singularmem-core/src/ingest.rs:128-172 | a batch that goes in is appended, in order |
| Table.CommitKeepsValid | crates/singularmem-core/src/ingest.rs:29-307 | every transaction keeps ids and external ids unique and supersedes links pointing to earlier rows, and lets rows only evolve |
| Table.ReachableTables | crates/singularmem-core/src/ingest.rs:29-307 | every table any transactions can reach satisfies those rules, and no row is ever removed, moved or edited beyond its scope and a given-up external id |
| Table.FieldsChangeOnlyAsSanctioned | crates/singularmem-core/src/ingest.rs:225-307 | which transaction may change which field of which row, and to what |
| Table.ReachableKeysAreCurrent | crates/singularmem-core/src/ingest.rs:225-265 | if supersession only goes through replacement, a row holding an external id is superseded by nothing |
| Revisions.RevisionHistory | crates/singularmem-core/src/query.rs:430-440 | reading one item at a time while other processes commit, the backward walk ends, meets no missing item, and returns the history of the table its first read saw |
| Revisions.LatestRevision | crates/singularmem-core/src/query.rs:456-499 | one query for each step, other processes committing in between: the forward walk equals its specification and ends once they stop |
| Revisions.LatestAcrossMeaning | crates/singularmem-core/src/query.rs:456-499 | whatever was committed meanwhile, the item the walk ends at was a head, or forked, at some read, with the starting item in its history then |
| Revisions.LatestAlone | crates/singularmem-core/src/query.rs:456-499 | when nobody else commits, that is the walk over the one table |
| Revisions.HistoryDescends | crates/singularmem-core/src/query.rs:430-440 | a history starts at the item, follows supersedes links to an original, goes strictly back in insertion order and never repeats an item |
| Revisions.LatestMeaning | crates/singularmem-core/src/query.rs:456-499 | over one table, a latest revision is superseded by nothing, has the starting item in its history, and the starting item's own history is a suffix of it |
| Revisions.AmbiguityMeaning | crates/singularmem-core/src/query.rs:486-496 | the answer is ambiguous exactly when the forward walk meets an item with two or more successors |
| Revisions.UnknownItems | crates/singularmem-core/src/query.rs:430-499 | both walks report an item as not found exactly when no row has its id |
| Store.Store.Ingest | crates/singularmem-core/src/ingest.rs:29-94 | one item: validation, id, supersedes check, insert, hook, and each error in the order it is found |
| Store.Store.IngestMany | crates/singularmem-core/src/ingest.rs:108-202 | a batch: everything validated first, one instant, one transaction, one batch hook and one commit |
| Store.Store.IngestReplacing | crates/singularmem-core/src/ingest.rs:225-275 | the old row gives up its external id and the successor is inserted, or nothing happens |
| Store.Store.SetScope | crates/singularmem-core/src/ingest.rs:289-307 | the normalised scope is written to the one row and no hook is told |
| Store.Store.RunHook | crates/singularmem-core/src/ingest.rs:311-326 | the hook is committed only if every member took the item |
| Store.Store.PublishBatch | crates/singularmem-core/src/ingest.rs:179-199 | after a batch the hook is committed even if indexing failed |
| Store.Store.MintRawUlid | crates/singularmem-core/src/ingest.rs:411-424 | 48 bits of milliseconds over 80 random bits, refused before 1970 without using random bytes |
| Store.Store.ExistingExternalIds | crates/singularmem-core/src/query.rs:102-121 | one point query per id, each seeing what other processes have committed by then |
| Store.Store.GetByExternalId | crates/singularmem-core/src/query.rs:71-91 | nothing exactly when no row holds the external id, else a row of the table that does |
| Store.IngestIsTransaction | crates/singularmem-core/src/ingest.rs:29-94 | a successful ingest is exactly one insert transaction of the row it returns; a failed one changes neither table nor hooks |
| Store.IngestManyIsTransaction | crates/singularmem-core/src/ingest.rs:108-202 | a successful batch is one transaction inserting one row per item; a failed one changes nothing |
| Store.RescopeIsTransaction | crates/singularmem-core/src/ingest.rs:289-307 | a successful scope change is one scope transaction; hooks never change |
| Store.BatchRefinesSingles | crates/singularmem-core/src/ingest.rs:108-202 | a batch succeeds exactly when its items one after another, at the same instant and from the same random stream, all succeed, with the same table and rows; otherwise the table is unchanged |
| StoreLaws.WhenIngestFails | crates/singularmem-core/src/ingest.rs:29-94 | exactly which error an ingest returns: read-only, the broken rule, the timestamp, an unknown item superseded, content the table refuses, a held external id, an id in use, in this order |
| StoreLaws.WhenReplacementFails | crates/singularmem-core/src/ingest.rs:225-275 | the same for a replacement, where the key of the row replaced does not count as held, and the item's own `supersedes` is never looked up |
| StoreLaws.WhenRescopeFails | crates/singularmem-core/src/ingest.rs:289-307 | the same for a change of scope |
| StoreLaws.SingleWriteHook | crates/singularmem-core/src/ingest.rs:311-326 | after a single write, if any member refused the item then nobody publishes anything, else every member commits; what each has pending, committed and visible then, for every fault |
| StoreLaws.BatchHook | crates/singularmem-core/src/ingest.rs:179-199 | after a batch each member has exactly the rows before its first failure pending, and commits whatever happened |
| Hook.RunAll | crates/singularmem-core/src/hook.rs:103-123 | every member is called whatever the others do, and the first failure is the one reported |
| Hook.AddAll | crates/singularmem-core/src/hook.rs:53-55 | the default batch hook indexes in order and stops at its first failure |
| Hook.LexicalIndex.ReindexFrom | crates/singularmem-search/src/index.rs:237-273 | dropping, indexing and committing equal the specified rebuild |
| Hook.ReindexedMeaning | crates/singularmem-search/src/index.rs:237-273 | from any sidecar, success leaves committed, pending and visible exactly one document per item given; a failure publishes either nothing or all of it; without faults it succeeds |
| Hook.LexicalIndex.CommitAndReload | crates/singularmem-search/src/hook.rs:19-41 | success makes committed and visible what was pending; a failure shows readers nothing new, whether or not the commit took effect before it |
| Hook.OneDocumentEach | crates/singularmem-search/src/index.rs:251-261 | with distinct ids, a document occurs once if it is some row's and not otherwise |
| Hook.DocumentScopeTerms | crates/singularmem-search/src/hook.rs:62-69 | a document carries its item's scope, and as ancestor terms exactly the paths the scope lies under |
| Agreement.NeverAStrayDocument | crates/singularmem-core/src/hook.rs:103-123 | over every run of writes, scope moves, rebuilds from listings that may lag behind the table, and changes of hook, with any failures and other processes writing, no member ever holds, pends or shows a document for an item not in the store |
| Agreement.NeverTwoDocuments | crates/singularmem-search/src/hook.rs:19-41 | over every such run no member ever holds, pends or shows two documents with one id |
| Agreement.WritesKeepTrack | crates/singularmem-core/src/ingest.rs:179-199 | a member that fails no more, beside members that may, keeps a pending document for exactly each item in the store, and publishes them at every batch and every write the others took |
| Agreement.FaultlessRunsAgree | crates/singularmem-core/src/ingest.rs:311-326 | from where no hook call fails any more, the committed and visible documents stay those of the store after each write |
| Agreement.RescopingDisagrees | crates/singularmem-core/src/ingest.rs:289-307 | after a scope change the index agrees exactly if the scope did not change |
| Agreement.DocumentsIgnoreOrder | crates/singularmem-search/src/index.rs:251-261 | a rebuild does not depend on the order items are listed in |
| Agreement.RebuildRepairs | crates/singularmem-core/src/ingest.rs:188-198 | recovery: after any run with any failures, once calls stop failing a rebuild from the whole table succeeds, and sidecar and store agree then and after every write that follows |
| Agreement.RebuildAgrees | crates/singularmem-search/src/index.rs:237-273 | a rebuild that reports success leaves exactly one document for each item listed, and so agrees with the store if the listing was the whole table, in any order |
| Agreement.LoadedIsListing | crates/singularmem-core/src/query.rs:14-30 | ids listed first and items loaded one by one while others commit make such a listing: each item once, as it is or was |
| Agreement.AgreementShowsEachItem | crates/singularmem-search/src/hook.rs:44-71 | when a member agrees with a valid table, each row has exactly one committed document, with the row's content, source, superseded item, tags, scope and time, and the scope's ancestors as terms |
| Agreement.AgreementShowsNoMore | crates/singularmem-search/src/hook.rs:44-71 | and every committed document is that of a row |
| Agreement.IndistinctRows | crates/singularmem-search/src/hook.rs:44-71 | two rows have the same document exactly when they differ in nothing but external id and metadata |
| Driver.IngestSource | crates/singularmem-ingest/src/driver.rs:42-117 | a whole run, with other processes committing between its reads and transactions, equals its specification |
| Driver.TriageAll | crates/singularmem-ingest/src/driver.rs:67-109 | the decision loop: keyless, duplicate, new, unchanged and changed candidates |
| Driver.ReplaceIfChanged | crates/singularmem-ingest/src/driver.rs:85-108 | a present item is replaced only when both sides carry a hash and they differ; a dry run only counts |
| Driver.WriteBatches | crates/singularmem-ingest/src/driver.rs:121-176 | batches of 500, each written, retried or taken apart |
| Driver.WriteBatch | crates/singularmem-ingest/src/driver.rs:130-173 | one batch and its three error paths |
| Driver.Retry | crates/singularmem-ingest/src/driver.rs:132-150 | after a conflict: filter again, count what dropped out, try once more |
| Driver.WriteEach | crates/singularmem-ingest/src/driver.rs:151-170 | item by item, a broken rule costing one `failed` and any other error ending the run |
| Driver.Collect | crates/singularmem-ingest/src/driver.rs:45-58 | the readable candidates in order, default scope applied, and the number of unreadable ones |
| DriverLaws.EveryResultIsCounted | crates/singularmem-ingest/src/driver.rs:42-176 | for every `Ok` run, with any other writers: ingested, skipped and failed add up to the results the source yielded, and exactly `ingested` rows were added (none by a dry run) |
| DriverLaws.CandidateOf | crates/singularmem-ingest/src/driver.rs:45-58 | the `i`-th input, if readable, is the candidate behind as many as were readable before it, unchanged but for a missing scope, which is the source's default |
| DriverLaws.FiveHundredAtATime | crates/singularmem-ingest/src/driver.rs:127-130 | five hundred items are written at a time while there are more, then what is left in one batch |
| DriverLaws.WithoutKeepsOrder | crates/singularmem-ingest/src/driver.rs:139-146 | the filter of the retry keeps, in order, exactly the items whose key is not held |
| Outcome.DiffersMeaning | crates/singularmem-ingest/src/driver.rs:85-97 | a candidate counts as changed exactly when both `sha256` fields are strings and they are different ones |
| Outcome.HeldKeysAfterARun | crates/singularmem-ingest/src/driver.rs:85-108 | with no other writer, after an `Ok` run: where the store held the key of a candidate that is the first with it, a new row recording the candidate and superseding the old one holds it if the hashes differ, and in every other case the same row, unchanged |
| Outcome.NewRowsOfARun | crates/singularmem-ingest/src/driver.rs:110-176 | and, when no time before 1970 was read, behind the rows there were and those of the replacements come, one for each and in order, rows recording the valid candidates without a key or first with a key nobody held |
| Outcome.CountsOfARun | crates/singularmem-ingest/src/driver.rs:42-176 | and each figure of the report counted off the source and the store before the run: ingested, failed, skipped and filtered |
| Outcome.PresentAmongWriters | crates/singularmem-ingest/src/driver.rs:85-108 | whatever others have committed since the run began: a candidate whose key was held then replaces the row that holds it now if the hashes differ, and is skipped if not or if nobody holds the key any more |
| Outcome.AfterALostRace | crates/singularmem-ingest/src/driver.rs:131-150 | a batch refused because of a conflict: unless yet another process commits, exactly the items whose key is held by then are skipped, and a row is added for each of the others, in order |
| Interleaved.OkRunHeldEveryKey | crates/singularmem-ingest/src/driver.rs:42-176 | for every `Ok` run that reads no time before 1970, whatever other processes commit in between, conflicts and retries included: every valid candidate that is the first with its key had that key held in the store at one of the run's looks or writes |
| Idempotence.DryRunPredicts | crates/singularmem-ingest/src/driver.rs:111-114 | with no other writer a dry run succeeds, changes nothing, skips what the real run skips, and counts as ingested what the real run ingests plus what it finds broken |
| Idempotence.SecondRunDoesNothing | crates/singularmem-ingest/src/driver.rs:42-176 | when every item has an external id, no other process writes and the first run reads no time before 1970, a second run after an `Ok` run is `Ok`, ingests nothing and leaves table, hooks, clock and random stream as they were |
| Rerun.WhenSecondRunDoesNothing | crates/singularmem-ingest/src/driver.rs:42-176 | with the clock steady at one time in each run, the second run after an `Ok` run has nothing to do exactly if the first time is not before 1970, or the second is, or no valid candidate was missing from the store |
| Idempotence.EarlyClockDefersItems | crates/singularmem-core/src/ingest.rs:413-416 | the failing input: a new item refused for its timestamp counts as failed and is written by the second run |
| RunErrors.WhenRunSucceeds | crates/singularmem-ingest/src/driver.rs:42-176 | with no other writer, and as far as a run over so many candidates can get a clock after 1970 and minted ids that are new, a run is `Ok` exactly when no candidate replaces a row while breaking a rule, is new and valid and supersedes an unknown item, holds valid content the table refuses, or has to be written to a read-only store |
| RunErrors.EveryErrorHasACause | crates/singularmem-ingest/src/driver.rs:42-176 | whatever the clock and the random bytes, every `Err` is one of those with its own error (a broken rule being exactly the one validation reports), or the last reading, for a replacement, lay before 1970, or the last id minted was in the table or minted before in the run; never a conflict |
| RunErrors.RunUses | crates/singularmem-ingest/src/driver.rs:42-176 | with no other writer a run reads the clock and mints at most twice for each candidate |
| RunErrors.ConditionsAreMet | crates/singularmem-core/src/ingest.rs:411-424 | an empty store, a clock at the start of 1970 and counted random bytes meet those conditions for every source that names nothing to supersede |
| RunErrors.FirstRunSucceeds | crates/singularmem-ingest/src/driver.rs:42-176 | there, for every such source, the run is `Ok` exactly when the table takes the content of every valid new item |
| RunErrors.BothOutcomesOccur | crates/singularmem-core/src/schema.rs:88 | for two short items it succeeds exactly when neither begins with U+0000 |
| RunErrors.InvalidReplacementEndsRun | crates/singularmem-ingest/src/driver.rs:102 | one changed item that breaks a rule makes the run return that rule's error |
| RunErrors.DanglingSupersedesEndsRun | crates/singularmem-ingest/src/driver.rs:172 | one new item that supersedes an unknown item makes the run return `SupersedesNotFound` |
| RunErrors.RefusedContentEndsRun | crates/singularmem-core/src/schema.rs:88 | one valid item whose content begins with U+0000 makes the run return the database's error |
| Idempotence.RetryResolvesConflict | crates/singularmem-ingest/src/driver.rs:132-150 | after a lost race, unless yet another process commits, the retry of a batch with distinct keys cannot conflict again, and exactly the items whose key is held by then were filtered out |
| Idempotence.WrittenNovel | crates/singularmem-ingest/src/driver.rs:121-176 | writing items whose keys are new and distinct never conflicts, adds only rows of those items, and stores every valid one |
| Idempotence.TriageIsSound | crates/singularmem-ingest/src/driver.rs:67-109 | throughout triage the accepted keys are those met, the set of held keys stays the same, untouched keys keep their holders, and what is left to write has new and distinct keys |
| Idempotence.ReplacedEffect | crates/singularmem-core/src/ingest.rs:225-275 | a replacement hands the key to the new row with the new hash and leaves the holders of all other keys alone |
| Chunk.ChunkText | crates/singularmem-ingest/src/chunk.rs:18-54 | the packing loop computes the specified chunks |
| Chunk.HardSplit | crates/singularmem-ingest/src/chunk.rs:57-79 | the byte-offset loops compute the trimmed segments, every cut at a character boundary |
| Chunk.HardSplitTiles | crates/singularmem-ingest/src/chunk.rs:57-79 | the segments concatenate to the paragraph, none is empty or over the cap, and each but the last is as long as a boundary allows |
| Chunk.PiecesAreTheTiling | crates/singularmem-ingest/src/chunk.rs:57-79 | there is only one tiling by such segments, and a paragraph is cut into its trimmed, non-empty parts |
| Chunk.OversizedParagraph | crates/singularmem-ingest/src/chunk.rs:31-38 | for every oversized paragraph of a text: the chunks are those of the paragraphs before it, then the trimmed parts of its tiling, then those of the paragraphs after it |
| Chunk.FallbackNeverTaken | crates/singularmem-ingest/src/chunk.rs:65-71 | with a cap of at least four bytes a cut always advances, so the single-character fallback is dead |
| Chunk.NothingSolidIsLost | crates/singularmem-ingest/src/chunk.rs:18-54 | the non-white-space characters of the chunks in order are those of the text |
| Chunk.ChunksAreWellFormed | crates/singularmem-ingest/src/chunk.rs:6-16 | every chunk is non-empty, trimmed and at most `max(max_bytes, 4)` bytes |
| Chunk.ChunksAreFixedPoints | crates/singularmem-ingest/src/chunk.rs:18-54 | chunking a chunk again gives that chunk |
| Chunk.GreedyIsOptimal | crates/singularmem-ingest/src/chunk.rs:41-51 | greedy packing needs no more groups than any order-preserving packing that fits |
| Chunk.ChunksAreFewest | crates/singularmem-ingest/src/chunk.rs:18-54 | when no paragraph exceeds the cap, `chunk_text` uses the fewest chunks of any packing of the paragraphs |
| Chunk.ChunksAreTheGreedyPacking | crates/singularmem-ingest/src/chunk.rs:39-52 | when no paragraph exceeds the cap, the chunks are the one packing in which every group fits and none could have taken the next paragraph |
| Chunk.SplitIsLeftmost | crates/singularmem-ingest/src/chunk.rs:31 | the text is split at blank lines from the left, and joining gives it back |
| Chunk.SplitIsUnique | crates/singularmem-ingest/src/chunk.rs:31 | any such list of parts is the one the split gives |
| TextLaws.Utf8LenIsShortest | crates/singularmem-ingest/src/chunk.rs:60-64 | a character takes the fewest bytes whose payload bits hold it (section 3 of RFC 3629) |
| TextLaws.WhitespaceIsListed | crates/singularmem-ingest/src/chunk.rs:31 | white space is the twenty-five characters with that Unicode property |
| TextLaws.SolidMeaning | crates/singularmem-ingest/src/chunk.rs:12-16 | the characters `Chunk.NothingSolidIsLost` speaks of are those that are not white space, in order |
| TextLaws.LessMeaning | crates/singularmem-core/src/query.rs:290 | text order is decided at the first difference, where the smaller character or the end comes first |
| TextLaws.ReplaceMeaning | crates/singularmem-adapter-claude/src/lib.rs:56-60 | a replacement touches each occurrence of its character and nothing else |
| Scope.Validate | crates/singularmem-core/src/scope.rs:26-73 | the validation loop computes the specified normal form or the first rule broken |
| Scope.Ancestors | crates/singularmem-core/src/scope.rs:78-90 | the prefix loop computes the specified list |
| Scope.ValidationMeaning | crates/singularmem-core/src/scope.rs:26-73 | a path is accepted exactly when its trimmed lower-case form is normal and the raw length allows, and that form is the result |
| Scope.ValidationIsIdempotent | crates/singularmem-core/src/scope.rs:26-73 | results are normal and fixed, and the normal forms are exactly the fixed points |
| ScopeLaws.NormalMeaning | crates/singularmem-core/src/scope.rs:10-15 | a scope is normal exactly when it is one to eight names of at most 64 letters of the alphabet `a-z0-9._-`, none of them `.` or `..`, joined by slashes, 512 characters in all |
| ScopeLaws.LowerMeaning | crates/singularmem-core/src/scope.rs:55 | lower-casing replaces the twenty-six ASCII capitals and nothing else |
| ScopeLaws.TrimSlashesMeaning | crates/singularmem-core/src/scope.rs:40 | slashes come off both ends and nothing else changes |
| ScopeLaws.RejectionMeaning | crates/singularmem-core/src/scope.rs:26-73 | an error names a rule exactly when it is the first one broken: of the raw text, then segment by segment, then of the whole path |
| Scope.AncestorsMeaning | crates/singularmem-core/src/scope.rs:78-90 | a path is among the ancestors exactly when the scope is it or lies under it |
| ScopeLaws.AncestorsInOrder | crates/singularmem-core/src/scope.rs:75-89 | the ancestors are the joined first segments, one more each time, ending with the scope |
| ScopeLaws.MatchesMeaning | crates/singularmem-core/src/scope.rs:126-136 | the predicate accepts the path itself and, unless exact, its continuations by a slash |
| Scope.LikeMeaning | crates/singularmem-core/src/scope.rs:145-153 | the escaped pattern matches exactly the texts that continue the path with a slash, wildcards in the path being literal and ASCII case ignored |
| Scope.SqlAgreesWithMatches | crates/singularmem-core/src/scope.rs:126-155 | predicate and SQL clause agree on all paths and scopes without ASCII capitals |
| Scope.WhenFiltersDiffer | crates/singularmem-core/src/scope.rs:126-155 | on any path and scope, predicate and SQL clause differ exactly when the scope continues, after a slash, a spelling of the path that differs in ASCII case alone |
| Scope.WhichFiltersAgree | crates/singularmem-core/src/scope.rs:126-155 | they agree on every scope exactly for exact filters and for paths without an ASCII letter |
| Scope.CapitalsSeparateTheFilters | crates/singularmem-core/src/scope.rs:141-155 | a pair on which they differ |
| Scope.FiltersAgree | crates/singularmem-search/src/query.rs:25-34 | on normalised paths and scopes the predicate, the LIKE clause and the ancestor term accept the same scopes |
| HookCommand.ParseOursMeaning | crates/singularmem-hooks/src/config.rs:36-56 | a command is ours exactly when it is a quoted path without a quote, then white space around `hook <editor> <event>` |
| HookCommand.CommandRoundTrip | crates/singularmem-hooks/src/config.rs:78-80 | the command we print parses back to its path, editor and event exactly when the path has no double quote |
| HookConfig.Merge | crates/singularmem-hooks/src/config.rs:213-256 | the merge loop computes the specified config |
| HookConfig.Remove | crates/singularmem-hooks/src/config.rs:262-298 | the removal computes the specified config |
| HookConfig.StripHooks | crates/singularmem-hooks/src/config.rs:274-289 | editing the hooks object in place, key by key, keeps the order of the keys that stay |
| HookConfig.Retain | crates/singularmem-hooks/src/config.rs:279-283 | the groups that are not ours, in order |
| HookConfig.MergeKeepsForeign | crates/singularmem-hooks/src/config.rs:213-256 | for every config and path: under our event keys the foreign groups in order and our one group last, elsewhere what was there, old keys in order and missing ones behind |
| HookConfig.MergeIsIdempotent | crates/singularmem-hooks/src/config.rs:202-256 | merging twice is merging once exactly when the path has no double quote |
| HookConfig.RemoveLeavesNoneOurs | crates/singularmem-hooks/src/config.rs:343-354 | after a removal none of our entries is found, whatever the config was |
| HookConfig.RemoveUndoesMerge | crates/singularmem-hooks/src/config.rs:183-297 | removing what a merge added gives the config back, key order included, exactly when the path has no double quote and the config is restorable |
| HookConfigLaws.ClaudeCodeConfig | crates/singularmem-hooks/src/config.rs:86-120 | the whole config a merge into an empty one writes for Claude Code, for every path: events, matcher, commands, time limits |
| HookConfigLaws.CodexConfig | crates/singularmem-hooks/src/config.rs:121-148 | the same for Codex, which has no session-end event |
| HookConfigLaws.CursorConfig | crates/singularmem-hooks/src/config.rs:149-171 | the same for Cursor, whose entries are flat and whose config has a version |
| HookConfigLaws.KeptGroups | crates/singularmem-hooks/src/config.rs:183-199 | filtering keeps, in order, exactly the groups that carry none of the twelve commands we write, up to the path and white space |
| HookConfigLaws.KeptKeys | crates/singularmem-hooks/src/config.rs:274-289 | removal goes through the keys in order: what is no array stays, an array keeps its foreign groups, a key whose groups are all ours goes |
| HookConfigLaws.SettingsSurvive | crates/singularmem-hooks/src/config.rs:213-297 | every setting but `hooks` survives both operations; a merge for Cursor adds a missing version, and a removal leaves alone what is no object |
| Fusion.RrfFuse | crates/singularmem-search/src/hybrid_query.rs:184-207 | scoring, reading out the map in any order and sorting give each id of either list once, with the sum of its reciprocals, in order of score and then id |
| Fusion.AddRanks | crates/singularmem-search/src/hybrid_query.rs:188-199 | the scoring loop adds each occurrence's reciprocal to its id's entry |
| Fusion.SearchHybrid | crates/singularmem-search/src/hybrid_query.rs:357-440 | the first `limit` fused ids with ranks and snippets attached again, and each error path |
| Fusion.FusionIsUnique | crates/singularmem-search/src/hybrid_query.rs:198-206 | there is one fusion: map order and swapping the lists make no difference, and no id repeats |
| Fusion.FusionRespectsAgreement | crates/singularmem-search/src/hybrid_query.rs:170-179 | an id ahead of another in one list and not behind in the other is ahead in the fusion, absence counting as last |
| Fusion.ScoreBound | crates/singularmem-search/src/hybrid_query.rs:184-207 | no score exceeds `2/(k+1)`, reached exactly by an id first in both lists |
| Fusion.HitScoresAreTheirRanks | crates/singularmem-search/src/hybrid_query.rs:398-432 | each hit's score is the sum of the reciprocals of the ranks it reports, and ranks and snippet are those of the rankers |
| FusionLaws.HitScore | crates/singularmem-search/src/hybrid_query.rs:170-179 | that score in numbers: one over `k` plus the rank, summed over the rankings the hit is in |
| FusionLaws.EachOccurrenceCounts | crates/singularmem-search/src/hybrid_query.rs:188-199 | an id's part of a score is built from the list's end, one over `k` plus the rank for each occurrence |
| FusionLaws.FusedOrder | crates/singularmem-search/src/hybrid_query.rs:200-206 | a fusion falls in score, and ids of one score rise |
| FusionLaws.InScopeKeepsOrder | crates/singularmem-search/src/hybrid_query.rs:220-236 | the scope filter keeps the semantic ranker's order and every accepted occurrence |
| FusionLaws.RankingsMeaning | crates/singularmem-search/src/hybrid_query.rs:253-397 | both rankers are asked for limit times multiplier candidates, at least one; the semantic one for twice that under a filter, and what it accepts is cut to that number |
| FusionLaws.WhenSearchFails | crates/singularmem-search/src/hybrid_query.rs:366-392 | which error a search returns: no scope lookup first, then the lexical failure, then the semantic one |
| Time.TextOrderIsTimeOrder | crates/singularmem-core/src/graph/time.rs:39-54 | for all instants of the years 0000 to 9999, the 30-character rendering sorts as text exactly as the instants do in time |
| Time.ParseUndoesRendering | crates/singularmem-core/src/graph/time.rs:17-37 | both renderings parse back to the instant |
| Time.RenderingUndoesParse | crates/singularmem-core/src/graph/time.rs:39-54 | a timestamp written in thirty characters is the rendering of what it parses to |
| Time.WhereDisplayOrderFails | crates/singularmem-core/src/graph/time.rs:43-49 | trimmed text sorts two instants wrongly exactly when they share a second and the earlier fraction begins the later one |
| Time.DisplayOrdersSeconds | crates/singularmem-core/src/graph/time.rs:43-49 | down to the second, trimmed text does sort as time |
| Time.DatesAreDayNumbers | crates/singularmem-core/src/graph/time.rs:10 | calendar dates and day numbers are in bijection and in the same order |
| Time.DaysClosedForm | crates/singularmem-core/src/graph/time.rs:10 | counting leap years one by one gives the closed form of the calendar |
| TimeLaws.MonthStarts | crates/singularmem-core/src/graph/time.rs:10 | the month lengths, written out, place every month of every year |
| TimeLaws.RenderedFields | crates/singularmem-core/src/graph/time.rs:10-54 | a rendered instant reads year, month, day, hour, minute, second and nanosecond in that order, each in its fixed number of digits |
| TimeLaws.DigitAt | crates/singularmem-core/src/graph/time.rs:10 | each position of such a number holds the digit of its power of ten |
| TimeLaws.DisplayMeaning | crates/singularmem-core/src/graph/time.rs:43-49 | the trimmed rendering is the fixed one without the zeros that end its fraction |
| TimeLaws.PointsParsed | crates/singularmem-core/src/graph/time.rs:17-37 | which texts are read as a time point, and as which: up to white space, a rendering that leaves out only final zeros of the fraction, or the date of a midnight |
| Wakeup.Recent | crates/singularmem-core/src/query.rs:278-326 | distinct matching rows, newest text first, at most `limit`, none omitted with later text |
| Wakeup.Build | crates/singularmem-retrieve/src/wakeup.rs:106-152 | the queries' rows merged by time, first occurrence of each id kept, cut and reversed; the total is the size of the union |
| Wakeup.KeepFirst | crates/singularmem-retrieve/src/wakeup.rs:122-123 | dropping repeated ids keeps every row once and the order |
| Wakeup.Render | crates/singularmem-retrieve/src/wakeup.rs:182-195 | the longest suffix of blocks whose page fits the budget, else the header alone |
| WakeupLaws.PageTellsCounts | crates/singularmem-retrieve/src/wakeup.rs:166-195 | a page begins with the scopes, the number of matching items and the number of blocks that follow on it, in decimal, whatever the budget dropped |
| Wakeup.ShowsAsManyAsAsked | crates/singularmem-retrieve/src/wakeup.rs:106-152 | distinct matching items, oldest to newest, and as many as the smaller of limit and total, even when scopes overlap |
| Wakeup.ShownAreNewest | crates/singularmem-retrieve/src/wakeup.rs:106-152 | when no two items accepted by one filter missort, no omitted match is newer than one shown |
| Wakeup.WhenShownAreNewest | crates/singularmem-core/src/query.rs:278-326 | for every table and filter: every limit, and every answer the query may give, shows the newest exactly when no two accepted items missort |
| Wakeup.ShownAreNewestToTheSecond | crates/singularmem-retrieve/src/wakeup.rs:106-152 | always, no omitted match lies in a later second than one shown |
| Wakeup.OneOfTwo | crates/singularmem-core/src/query.rs:290 | of two matches a wake-up of one shows the later exactly when their stored fractions sort |
| Claude.EscapeIsOnePass | crates/singularmem-adapter-claude/src/lib.rs:56-60 | the three replacements in sequence are the one-pass escape of each character |
| Claude.UnescapeUndoesEscape | crates/singularmem-adapter-claude/src/lib.rs:50-60 | escaping has a left inverse and leaves no angle bracket |
| Claude.Format | crates/singularmem-adapter-claude/src/lib.rs:24-47 | the writing loop produces the specified text |
| Claude.FormatCanBeReadBack | crates/singularmem-adapter-claude/src/lib.rs:24-47 | from the text one reads back every block's source, joined tags and content, in order, whatever markup they hold |
| Claude.FormatIsFaithful | crates/singularmem-adapter-claude/src/lib.rs:24-47 | two lists of blocks with the same text show the same sources, tags and contents in the same order |
| ClaudeLaws.EscapeMeaning | crates/singularmem-adapter-claude/src/lib.rs:50-60 | exactly `&`, `<` and `>` are replaced, each by its entity |
| ClaudeLaws.LastDocument | crates/singularmem-adapter-claude/src/lib.rs:24-47 | a further block becomes a further document, numbered from 1, with a line for source and tags only if there are any |
| Metrics.FirstHitRank | crates/singularmem-bench/src/metrics.rs:99-103 | the first position holding an evidence session, counted from 1, if there is one |
| Metrics.Acc.Add | crates/singularmem-bench/src/metrics.rs:125-137 | every counter is updated in place by one question |
| Metrics.Summarise | crates/singularmem-bench/src/metrics.rs:163-203 | each mode, and each kind and mode, has the metrics of exactly its scored questions, and an entry only if it has any |
| Metrics.OverallIsSumOfKinds | crates/singularmem-bench/src/metrics.rs:183-192 | in every mode overall counts, hits, reciprocal ranks and times are the sums of those by kind |
| Metrics.EveryQuestionIsCounted | crates/singularmem-bench/src/metrics.rs:169-177 | failures, abstentions and scored questions add up |
| Metrics.RecallIsMonotone | crates/singularmem-bench/src/metrics.rs:141-157 | recall at a larger cut-off is no smaller, and lies between 0 and 1 |
| Metrics.RecallBoundsMrr | crates/singularmem-bench/src/metrics.rs:125-157 | for every `k >= 1`, `R@k / k <= MRR <= R@k + (1 - R@k) / (k + 1)` |
| MetricsLaws.FiguresMeaning | crates/singularmem-bench/src/metrics.rs:125-157 | the figures of a mode, over all or one kind: recall at `k` is the share of scored questions with an evidence session among the first `k` hits, with the number scored, the mean of the reciprocal ranks, and questions per second |
| MetricsLaws.LastQuestionAdds | crates/singularmem-bench/src/metrics.rs:125-137 | a further scored question adds one over the position of its first evidence session, or nothing, and its time |

## Left out

- SQLite, Tantivy, the vector index and its journal, graph reads and writes, embeddings: not part of this model; a table is a sequence of rows with atomic transactions, the lexical index a multiset of documents.
- SQLite failures inside store operations other than a repeated id or external id (busy, disk full): not modelled for the store and the driver; the open protocol does model a failure at every call.
- Store.Store.Ingest: when an insert would break both uniqueness rules at once, the external id is taken to be reported first.
- RunErrors.WhenRunSucceeds: metadata of any depth is stored and read back; SQLite's `json_valid` (`crates/singularmem-core/src/schema.rs:90`) refuses an insert, and the JSON reader (`crates/singularmem-core/src/query.rs:546-550`) a row, when the nesting goes beyond a limit of the library's own, which then ends a run.
- Agreement.NeverAStrayDocument: the operations of one process come one after another, and so do the index calls of a rebuild; threads sharing one store or one index are not modelled.
- Revisions.LatestRevision: the candidates of a fork are listed in insertion order, where the query leaves the order open; a walk that other processes keep ahead of for ever is not modelled.
- Schema.FreshDdl: column types are the two the DDL uses, and a `CHECK` is known by the name of its condition; what conditions and defaults mean to SQLite is not in the catalog.
- Store.Store.SetScope: the row returned is the one just written, where the code reads it again in a second statement, after which other processes may have changed it.
- Wakeup.Build: the count and all the lists come from one snapshot, where the code asks for each in a query of its own.
- Wakeup.Recent: a row is taken whole from the query's snapshot, where the code fetches each item by id afterwards; other processes cannot commit in between.
- Fusion.SearchHybrid: only the branch with both rankers is modelled, with real scores instead of 32-bit floats; elapsed time, pre-fusion counts and the score kind are not.
- Metrics.Summarise: kinds and modes index one flat map instead of nested ones, and the accumulators live in maps as values between questions.
- Hook.RunAll: the members of a composite hook are values in a sequence, all of the lexical kind; a member with its own batch method is not modelled.
- Time.ParseUndoesRendering: the parser accepts dates and UTC timestamps written with `T` and `Z`; offsets, lower-case letters, leap seconds and years outside 0000 to 9999 are not modelled.
- HookCommand.CommandRoundTrip: a binary path is its text as displayed; paths that are not valid Unicode are not modelled.
- JSON numbers are reals, and serialising, reading and atomically writing config files are left out, as is `status`.
- `ScopeSet::for_project`, `list`, `list_by_tags_scoped`, `scopes` and export are left out: they would add only one-line queries.
- The sources themselves (transcripts, directory walks, `strip_system_reminders`, external ids of files) are left out: a source is a sequence of items and errors with a filtered count and a default scope.
- The retry loop that sets the WAL journal mode, file locks, sleeps, command lines, error texts and language bindings are left out.
