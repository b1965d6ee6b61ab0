# Pulsar indexer: verification model

This project models the parts of Pulsar where correctness depends on several pieces of code agreeing, and proves what they promise together. `dafny verify dfyconfig.toml` checks all of it.

## What is modelled

**Ingest.** Each tracked contract has one poller. A tick reads the stored progress, drains RPC pages from the next ledger, classifies a range rejection against fresh bounds, and commits the events and the new cursor in one transaction with conflict-skip on `(ledger, event_index)`. The code is modelled twice, and the two are tied together. `Store.Database` and `Polling.Poller` are the code's own shape: classes with fields, transactions, paging loops and a failure possible at every call. `Protocol` is a state machine in which ticks of any number of contracts interleave step by step with registrations, deletions, chain growth and a rising retention floor. `Ticks.TickIsARun` says that what `Poller.TickOnce` does is a run of that state machine, page by page, so a tick takes a reachable state to a reachable one. The theorems about all reachable states are in `Ingest`, concrete runs that show a failure are in `Witnesses`.

The environment is an RPC over a growing ordered chain (`Chain`): a page is the next contiguous run of a contract's events, a short page ends at a ledger boundary that may lie before the tip, as far as RPC scanned, `(ledger, event_index)` identifies an event, and a new row's id exceeds the ids its contract already has. Nothing is assumed about ids of different contracts.

**Reading.** Rows are ordered by `(ledger, event_index, id)`, but the page cursor is the bare id. `Keyset` proves paging from the order invariant the write side keeps, on a fixed table and on tables that grow between pages, and proves that the invariant is also necessary. `Ingest.PagingWhilePolling` joins the two sides. `Paging` and `Reader` hold the statement builder and the page method. `Client` is the SDK's side: a query is checked, sent as text, parsed by the REST boundary and run, and a stream walks the pages; `Client.StreamWhilePolling` is about a stream over a contract that is being indexed.

**Decoding.** `Decoder` translates ScVals recursively and counts its fallbacks, `Interleaving` runs any number of decodes on the one counter, `Limbs` prints 128- and 256-bit integers, `Json` writes and reads decoded values, `Wire` says what the written form is and what the reader accepts, and `Sdk` is the SDK's schema, which reads what is written. Strings are byte sequences and `Utf8` says which are valid.

**Migrations.** `Splitter` is the hand-written statement scanner and the plain description it meets. `Scripts` says exactly which statements survive printing and splitting, and `SqlText` says in characters alone what the splitter answers. `MigrationFiles` reads a directory, `Directories` says which ones are good, and `Migrations` runs Up, Down and Version against a schema whose engine is any function of statements, with any call failing.

**Boundaries.** `RateLimiter` is the fixed-window limiter with its lazy sweep. `Boundary` holds the REST and GraphQL event-query parsers, `EventFilters` the URL codec of the explorer's filters, `Backoff` the waits of the poll loop.

A method is proved against a function that specifies it, and what that function means is then said once more without it: literal names, code points, place values and positions (the lemmas named `...Means`, `Decoder.Stands`, `Wire.Written`, `Migrations.Takes`, `SqlText.LaidOut`, `Store.ReadRow`).

## Where the code and its comments disagree

The model follows the code. Each finding has a lemma.

- A committed tick advances progress past events that are not stored in two cases: the ledgers a low-side rejection skipped, and a contract deleted and registered again between a tick's read of the progress and its commit. `ProgressMeansStored` is exact with both recorded. The second happens at exactly the commits whose tick did not start right above the progress they replace (`CommitRecordsStaleGap`); without such commits only retention loses events (`RetentionIsTheOnlyLoss`), and `StaleRunLoses` is a run with one.
- `drain` collects without bound but `Insert` refuses more than 10000 events, so a larger backlog fails a tick and nothing of it is stored (`Poller.TickOnce`). Since a backlog only grows while RPC serves its start, the next tick fails too, and so on (`OversizedBacklogSticks`).
- A tick reaches only what RPC scanned. When that holds no decodable event of the contract, the tick succeeds, writes nothing and the next one starts at the same ledger, however often (`ProgressNeedsTheScan`, `ShortScansStall`).
- The id cursor is valid only because ids run in emission order. A commit keeps that order exactly when what it inserts comes last for its contract (`InsertKeepsOrderExactly`); two pollers on one contract can break it (`TwoPollersBreakOrder`), and without it some page size loses or reorders rows (`KeysetNeedsEmissionOrder`).
- `parse` says a duplicate up or down file cannot occur. `strconv.Atoi` reads `+001`, so `+001_x.up.sql` and `0001_x.up.sql` are the same migration, and one of the two is read and ignored (`TwinIsIgnored`, with the exact condition in `EveryFileUsed`).
- `SplitStatements` drops only whole-line comments, so a trailing comment becomes the head of the next statement (`TrailingCommentLeaks`, with the exact condition in `SplitUndoesPrintExactly`).
- `Down` with migration files that do not cover everything recorded leaves a gap, and `Version` then answers `Dirty` (`DownKeepsPrefix`, `DownThenVersion`).
- `nextBackoff` says it never drops below the floor. It checks the ceiling first, so that holds exactly for poll intervals of at most 60 seconds (`FloorIsKeptBelowCeiling`).
- The rate limiter's sweep shows when the clock goes back into a window that a sweep has removed, and only then (`SweepShowsExactly`, with a run in `ClockGoingBackShowsTheSweep`); a window can then admit more than the limit (`ForgottenWindowAdmitsTwice`). An interval of one window length admits at most 2 * limit - 1 calls as long as the clock does not go back into it, and limit - 1 more for each time it does (`ClockRunAdmits`, reached by `IntervalBoundIsReached`).

## Model

| member | source | states |
|---|---|---|
| Ingest.ProgressMeansStored | indexer/internal/rpc/events.go:153-350 | in every reachable state a decodable event at or below its contract's progress is stored if and only if its ledger lies in no recorded gap; a retention gap only holds ledgers RPC no longer serves |
| Ingest.RetentionIsTheOnlyLoss | indexer/internal/rpc/events.go:263-302 | over every run, deletions in the middle of ticks included, in which each commit that goes through starts right above the progress it replaces, every decodable event up to the progress that RPC still serves is stored |
| Ingest.CommitRecordsStaleGap | indexer/internal/rpc/events.go:317-350 | a commit that goes through records a stale gap if and only if its tick did not start right above the progress, and the gap is what lies between them |
| Ingest.UndisturbedIsCurrent | indexer/internal/rpc/events.go:153-176 | in every reachable state a tick whose contract was not deleted since it began starts right above the progress |
| Ingest.StaleCommitLoses | indexer/internal/rpc/events.go:317-350 | from any reachable state, a commit under a contract deleted and registered again moves progress past decodable events that are not stored, and over any run after it they stay that way until the contract is deleted once more |
| Ingest.MissedIsLost | indexer/internal/rpc/events.go:153-350 | an event that the progress has passed without storing it stays unstored, at or below the progress, over any run that does not delete its contract |
| Witnesses.StaleRunLoses | indexer/internal/rpc/events.go:317-350 | ten steps from an empty database, each one the system can take, leave an event that RPC still serves at or below the progress and not stored |
| Ingest.RowsAreChainEvents | indexer/internal/store/events.go:128-132 | in every reachable state each row is an event of the chain and no `(ledger, event_index)` is stored twice |
| Ingest.IdsFollowEmission | indexer/internal/store/events.go:265-273 | in every reachable state, within a contract, one id is below another if and only if its `(ledger, event_index)` comes first, however contracts interleave |
| Ingest.InsertKeepsOrderExactly | indexer/internal/store/events.go:265-273 | inserting an ordered batch under fresh ids into an ordered table keeps emission order if and only if every event of it that meets no stored key comes after every stored row of its contract |
| Witnesses.TwoPollersBreakOrder | indexer/internal/rpc/events.go:153-176 | two ticks of one contract from the same stored progress, over a world whose floor rises between their pages, each with a legal outcome: the fast one is rejected, resumes from the floor and commits first; after the slow one commits, ids break emission order and progress has gone back |
| Ingest.CommitAdvances | indexer/internal/rpc/events.go:317-350 | a commit that goes through strictly raises progress within the chain, writes the first ledger once and at most the last, appends its whole batch and touches no other contract; any other commit changes nothing |
| Ingest.StartLedgerNeverTruncates | indexer/internal/rpc/events.go:159-164 | in every reachable state the uint32 start ledger is exactly one past the progress |
| Ticks.TickKeepsInvariant | indexer/internal/rpc/events.go:153-176 | what a tick writes keeps the invariant, and takes a reachable state to a reachable state |
| Ticks.TickIsARun | indexer/internal/rpc/events.go:153-313 | what TickOnce does is nothing, or the run of protocol steps it stands for, with the whole state that run ends in: begin, the rejection and the health call if there was one, one fetch for each page in the world it met, commit |
| Ticks.TickStaysReachable | indexer/internal/rpc/events.go:153-176 | a tick run on the database of any reachable state, failing anywhere, leaves the database of a reachable state |
| Ticks.ProgressNeedsTheScan | indexer/internal/rpc/events.go:184-257 | a tick with no fault over a still window: if the scan reaches no decodable event of the contract it succeeds and changes nothing; if it reaches more than 10000 it fails and changes nothing; otherwise every event reached is stored and the progress is at or past all of them |
| Ticks.ShortScansStall | indexer/internal/rpc/events.go:153-176 | any number of such ticks whose scans reach no decodable event succeed and leave the database as it was |
| Ticks.BacklogIsReached | indexer/internal/rpc/events.go:184-257 | the backlog is not empty exactly when some decodable event of the contract lies between the start ledger and the last ledger scanned |
| Ticks.BacklogOnlyGrows | indexer/internal/rpc/events.go:184-257 | while the chain grows and RPC scans no less far, an old backlog is a prefix of the new one |
| Ticks.OversizedBacklogSticks | indexer/internal/rpc/events.go:153-176 | with a backlog over one insert batch, any number of ticks, each over a still window of a growing chain, fail with the batch error and leave the database as it was |
| Ingest.RunOnlyAppends | indexer/internal/rpc/events.go:317-350 | over any part of a run that does not delete a contract, its readers see only rows appended later in emission order |
| Ingest.PagingWhilePolling | indexer/internal/store/events.go:164-199 | from any reachable state, with any steps between pages: a descending walk that ends yields exactly what matched at its first page, an ascending one every row of the first table once and in order, then only newer ones, ending with exactly the last table |
| Protocol.StepKeeps | indexer/internal/rpc/events.go:153-350 | every step of every interleaving keeps the invariant: rows on the chain and in order, progress bounded, completeness, and exact in-flight drains |
| Protocol.RunKeeps | indexer/internal/rpc/events.go:153-350 | so does every run |
| Protocol.InitEstablishes | indexer/internal/store/contracts.go:35-50 | an empty database with no tick under way meets the invariant |
| Protocol.CommitEffect | indexer/internal/rpc/events.go:317-350 | the whole state after a commit, case by case |
| Protocol.FetchKeeps | indexer/internal/rpc/events.go:184-257 | absorbing any served page keeps the invariant |
| Protocol.RegisterKeeps | indexer/internal/store/contracts.go:35-50 | registering, once or again, keeps the invariant |
| Protocol.DeleteKeeps | indexer/internal/store/contracts.go:120-134 | deleting at any time, also in the middle of a tick, keeps the invariant |
| Polling.AbsorbKeepsExact | indexer/internal/rpc/events.go:184-257 | after each page the batch is exactly the decodable events between the start ledger and the page's end; a short page makes it final at a ledger boundary |
| Polling.ReachAtTip | indexer/internal/rpc/events.go:184-257 | when RPC scans to its tip, what a drain reaches is the whole chain |
| Polling.Poller.AssemblePage | indexer/internal/rpc/events.go:206-226 | appends what decodes, skips what does not, and returns the highest ledger assembled |
| Polling.Poller.Drain | indexer/internal/rpc/events.go:184-257 | on success the batch is exactly the contract's decodable events from the start ledger to a ledger boundary of a world seen during the drain; against a still window with n of the contract's events within the scan it makes n / batchSize + 1 calls and ends where the scan does; a rejected first call ends it at once, and the call it stopped at accounts for its error |
| Polling.Poller.HandleRangeError | indexer/internal/rpc/events.go:263-313 | above the tip it holds, inside the window it surfaces the error, below the floor it resumes from the floor read and, with no fault and a still window, stores all that the scan reaches from there if it has at most 10000 events; its effect is nothing or one exact commit |
| Polling.Poller.Commit | indexer/internal/rpc/events.go:317-350 | events and cursor are written together or not at all, and with no fault exactly when the store accepts both |
| Polling.Poller.CommitDrained | indexer/internal/rpc/events.go:172-176 | an empty batch ends the tick with nothing written, any other is one commit; with no fault and a still window the outcome is decided by what the scan reaches |
| Polling.Poller.TickOnce | indexer/internal/rpc/events.go:153-176 | whatever fails, the database is unchanged or holds one exact commit; with no fault and a still window everything the scan reaches, however short, is stored if and only if it has at most 10000 events; a rejection is classified against the bounds read next |
| Store.InsertIsIdempotent | indexer/internal/store/events.go:79-144 | a batch inserted a second time, under any ids, changes nothing |
| Store.InsertStoresBatch | indexer/internal/store/events.go:79-144 | after an insert every event of the batch has a row under its key and every old row is still there in place |
| Store.InsertKeepsUniqueKeys | indexer/internal/store/events.go:128-132 | conflict-skip keeps `(ledger, event_index)` unique |
| Store.InsertFreshBatch | indexer/internal/store/events.go:128-132 | a batch that meets no stored key is appended whole, in order |
| Store.BuildInsert | indexer/internal/store/events.go:87-131 | the statement names the table's columns, row i takes slots `$11i+1` to `$11i+11`, and reading it column by column through names, slots and arguments gives exactly event i; the first nil event or empty contract id is refused with its own error |
| Store.RowReads | indexer/internal/store/events.go:111-131 | a row bound to an event fills every named column with a value of its type, and what it puts under `contract_id`, `ledger`, `tx_hash` and the rest are that event's own |
| Store.CheckedMeans | indexer/internal/store/events.go:92-97 | a batch is accepted if and only if every pointer holds an event with a contract id; otherwise the first that does not decides the error |
| Store.ExecuteInsert | indexer/internal/store/events.go:128-144 | running the built statement row by row, each event read from its own slots under the column names, is the batch insert |
| Store.Database.Insert | indexer/internal/store/events.go:79-144 | an empty batch, one over 10000, a nil event and an empty contract id are handled before the database; otherwise the new table, read from the built statement, and the count are exactly those of the batch insert |
| Store.Database.Register | indexer/internal/store/contracts.go:35-50 | adds a fresh row only when there is none, and returns the row that is there |
| Store.Database.SetProgress | indexer/internal/store/contracts.go:141-159 | sets the last ledger, and the first only when it is null, and no other contract; an unknown contract is not found |
| Store.Database.Delete | indexer/internal/store/contracts.go:120-134 | removes the contract and leaves exactly the other contracts' rows, in order; an unknown contract is not found |
| Store.Database.Get | indexer/internal/store/contracts.go:53-66 | returns the stored row or not found, and changes nothing |
| Store.WithoutMembers | indexer/internal/store/contracts.go:117-134 | the rows that survive a deletion are those of the other contracts |
| Store.WithoutRemains | indexer/internal/store/contracts.go:117-134 | and they stay in their order: the rest is the rows at the rising positions that hold other contracts |
| Store.Database.CommitTx | indexer/internal/rpc/events.go:338-340 | a commit drops the saved state and keeps what the transaction wrote; a failed one leaves both for the rollback |
| Store.Database.Rollback | indexer/internal/rpc/events.go:321-325 | restores exactly what was there when the transaction began |
| Paging.BuildEventsQuery | indexer/internal/store/events.go:227-286 | for every filter combination the conditions mean the plain filter and the keyset on a row, each placeholder is used once and in order, the last binds limit + 1, and each rejected query has its error |
| Paging.BuildFilters | indexer/internal/store/events.go:239-259 | the filter conditions alone mean the plain filter |
| Paging.CursorRoundTrip | indexer/internal/store/events.go:323-334 | a formatted cursor is not empty and parses back to its id |
| Keyset.FoundIsById | indexer/internal/store/events.go:277-285 | on a table in emission order the answer is sorted by id and holds exactly the rows asked for |
| Keyset.FoundMeans | indexer/internal/store/events.go:239-274 | a row is found if and only if it is stored, of the contract asked for, meets each filter that is set, and lies past the cursor, filter by filter |
| Keyset.OrderBySorts | indexer/internal/store/events.go:277-280 | the answer holds each selected row as often as the table, by ledger, then event index, then id, in the direction asked for |
| Keyset.ResumeAfter | indexer/internal/store/events.go:265-273 | resuming after the k-th row's id gives exactly the rest |
| Keyset.FixedWalk | indexer/internal/store/events.go:193-199 | on a fixed table a walk yields all that matches, in order, without repeats or omissions, in max(1, ceil(n / limit)) pages |
| Keyset.DescendingWalkIsStable | indexer/internal/store/events.go:164-199 | a descending walk over a growing table yields exactly what matched at its first page |
| Keyset.AscendingWalkCatchesUp | indexer/internal/store/events.go:164-199 | an ascending walk that ends has yielded exactly what its last table holds |
| Keyset.AscendingWalkKeepsStart | indexer/internal/store/events.go:164-199 | and every row of its first table once, in order, before any newer one |
| Keyset.SingleRowWalkIsById | indexer/internal/store/events.go:265-273 | one row at a time, a walk's ids only move one way, whatever the table |
| Keyset.KeysetNeedsEmissionOrder | indexer/internal/store/events.go:265-273 | an ascending single-row walk returns the whole table in order if and only if ids run in emission order |
| Reader.QueryPage | indexer/internal/store/events.go:164-199 | a page is answered if and only if the query is acceptable and the driver works, and is the first limit rows found, with the last one's id as cursor exactly when more remain |
| Reader.AcceptedMeans | indexer/internal/store/events.go:206-334 | a query is acceptable if and only if its limit is 0 to 10000, it names a contract, the engine and the order are known, and the cursor is empty or spells an id; 0 means 100 rows and no order means oldest first |
| Reader.ScanReads | indexer/internal/store/events.go:378-411 | a row selected under the column list and scanned by position is that row |
| Reader.StoredAsBound | indexer/internal/store/events.go:111-131 | under every column it names, an inserted row keeps the argument bound to it |
| Reader.ExecuteFetches | indexer/internal/store/events.go:275-286 | the statement fetches the first limit + 1 rows found |
| Reader.NextCursorReads | indexer/internal/store/events.go:193-199 | a page's cursor reads back as the id it was made of |
| Client.EventStream | packages/sdk/src/client.ts:370-389 | the stream yields exactly the walk over the pages served before the first request that is not answered, newest first and 50 to a page unless the query says otherwise, and fails if that request was needed; a query that means nothing fails at once, as invalid if the client refused it |
| Client.Events | packages/sdk/src/client.ts:259-298 | a page is answered if and only if the query means something, the request gets through and the contract is tracked, and is then the page of what the query means; otherwise the error says whether the client refused it |
| Client.ResolveMeans | packages/sdk/src/types.ts:271-282 | which queries the schema accepts, field by field, and that it changes nothing but an absent limit or order |
| Client.MeantMeans | packages/sdk/src/types.ts:271-282 | what a caller's query asks the store, field by field: 50 rows newest first unless it says otherwise, limits 1 to 500, ledgers up to 2^53 - 1 and not inverted, text that is not empty, valid and free of NUL, a cursor of digits; anything else is refused |
| Client.RequestMeans | indexer/internal/api/handlers.go:251-296 | printing a query the client accepts and parsing it at the REST boundary gives exactly its typed meaning, or fails exactly when it has none |
| Client.NextRequestMeans | packages/sdk/src/client.ts:370-389 | the next page's request means the same query with the cursor moved |
| Client.StreamWhilePolling | packages/sdk/src/client.ts:300-346 | a stream read to its end from any reachable state, with any steps of the ingest protocol between its pages short of deleting the contract: newest first it yields exactly what matched when it began, oldest first that and then only newer events, ending with exactly the last table |
| Decoder.Decoder.Decode | indexer/internal/decoder/decoder.go:198-309 | the result stands for the value: kind and content of every variant at any nesting, each number as its decimal, bytes as hex pairs, text as itself, items and entries in order; the counter grows by exactly the unknown nodes in it |
| Decoder.DecodedStands | indexer/internal/decoder/decoder.go:198-325 | a decoded value stands for an ScVal if and only if it is its translation |
| Decoder.Decoder.Fallback | indexer/internal/decoder/decoder.go:314-325 | one unknown node, one count |
| Decoder.Decoder.DecodeItems | indexer/internal/decoder/decoder.go:286-293 | vector items in order, counter exact |
| Decoder.Decoder.DecodeEntries | indexer/internal/decoder/decoder.go:295-309 | map entries in order with repeated keys, counter exact |
| Decoder.Decoder.DecodeTopics | indexer/internal/decoder/decoder.go:183-194 | decodes in order up to the first topic that does not parse, each result standing for its topic; the counter keeps what was counted before it |
| Interleaving.StepConserves | indexer/internal/decoder/decoder.go:314-325 | one step of one of several decodes on a shared counter keeps counted plus still to be counted |
| Interleaving.RunConserves | indexer/internal/decoder/decoder.go:198-325 | so does any interleaving, at every point of it |
| Interleaving.EveryInterleavingCountsAll | indexer/internal/decoder/decoder.go:157-166 | however any number of decodes interleave, once all are done the counter has grown by exactly the unknown nodes of all their results |
| Interleaving.EveryScheduleEnds | indexer/internal/decoder/decoder.go:198-325 | no interleaving gets stuck or goes on for ever: it is finished exactly when it has taken as many steps as there are values, and until then some decode can go on |
| Decoder.DecodeInjective | indexer/internal/decoder/decoder.go:198-325 | distinct ScVals decode differently at any nesting, given injective strkey and XDR encodings |
| Decoder.NameIsFirstSymbol | indexer/internal/rpc/events.go:424-437 | an event has a name exactly when its first topic is a symbol |
| Limbs.I128IsTwosComplement | indexer/internal/decoder/decoder.go:332-336 | the printed value is the two's complement of the 128 bits, and in range |
| Limbs.I256IsTwosComplement | indexer/internal/decoder/decoder.go:344-351 | the same for 256 bits |
| Limbs.I256Onto | indexer/internal/decoder/decoder.go:344-351 | every value in range has limbs |
| Limbs.I128Injective | indexer/internal/decoder/decoder.go:332-336 | distinct limbs are distinct values |
| Limbs.U128Injective | indexer/internal/decoder/decoder.go:338-342 | distinct limbs are distinct values |
| Limbs.U256Injective | indexer/internal/decoder/decoder.go:353-360 | distinct limbs are distinct values |
| Limbs.I256StringsDistinct | indexer/internal/decoder/decoder.go:344-351 | distinct limbs print differently, negative high limbs included |
| Limbs.Int128String | indexer/internal/decoder/decoder.go:332-336 | prints the decimal of the signed value |
| Limbs.Uint128String | indexer/internal/decoder/decoder.go:338-342 | prints the decimal of the unsigned value |
| Limbs.Int256String | indexer/internal/decoder/decoder.go:344-351 | the shift-and-add loop prints the decimal of the signed value |
| Limbs.Uint256String | indexer/internal/decoder/decoder.go:353-360 | the shift-and-add loop prints the decimal of the unsigned value |
| Numerals.FormatIntSays | indexer/internal/decoder/decoder.go:332-360 | the printed text is the one decimal of the number: place values of its digits, no leading zero, a minus sign exactly when it is negative |
| Json.RoundTrip | indexer/internal/decoder/decoder.go:77-149 | for every value of a shape Decode produces, unmarshalling undoes marshalling if and only if all its text is valid UTF-8 |
| Wire.MarshalWrites | indexer/internal/decoder/decoder.go:58-99 | the JSON of a value of a shape Decode produces has exactly the members `type`, then `value` unless it is void or unknown, then `xdr` when not empty, in the JSON kind of its variant; an entry has exactly `key` and `value` |
| Wire.UnmarshalMeans | indexer/internal/decoder/decoder.go:101-149 | unmarshalling yields a value if and only if the JSON reads as it: each field from its last member whose name is spelled the same up to case, nulls passed over |
| Wire.FoldMeans | indexer/internal/decoder/decoder.go:101-149 | names match if and only if they agree letter by letter up to ASCII case, the long s and the Kelvin sign included |
| Sdk.SdkReads | packages/sdk/src/types.ts:88-125 | the SDK's schema, with exact names and no nulls, accepts the JSON of every decoded ScVal and reads from it the ScVal's kind and content at any nesting |
| Json.DecodedRoundTrip | indexer/internal/decoder/decoder.go:77-149 | a decoded ScVal survives JSON if and only if its strings and symbols are valid UTF-8 |
| Json.DecodeIsShaped | indexer/internal/decoder/decoder.go:198-325 | everything Decode produces has its variant's shape, and its text is clean exactly when the ScVal's is |
| Json.KindNameReads | indexer/internal/decoder/decoder.go:26-46 | the type names read back as themselves |
| Json.Receiver.UnmarshalJSON | indexer/internal/decoder/decoder.go:101-149 | on success the receiver holds exactly what the JSON says, whatever it held before; it fails exactly when the JSON does not fit; members match by case-folded name, nulls leave a field alone and a repeated member wins last |
| Utf8.CoerceKeepsExactlyValid | indexer/internal/decoder/decoder.go:77-99 | encoding keeps a string if and only if it is valid UTF-8 |
| Utf8.ValidMeans | indexer/internal/decoder/decoder.go:77-99 | a string is valid if and only if it is the encoding of a sequence of code points, as section 3 of RFC 3629 tabulates it |
| Utf8.CoerceKeepsRunes | indexer/internal/decoder/decoder.go:77-99 | coercion keeps every encoded code point and goes on after it |
| Utf8.CoerceReplaces | indexer/internal/decoder/decoder.go:77-99 | a byte where no code point's encoding begins becomes U+FFFD, alone |
| Numerals.FormatIntReads | indexer/internal/store/events.go:323-334 | an int64 prints and reads back |
| Numerals.ParseInt64Means | indexer/internal/store/events.go:323-334 | text reads as an int64 if and only if it is an optional sign and digits whose place values add up to it |
| Numerals.FormatIntInjective | indexer/internal/decoder/decoder.go:332-360 | distinct integers print differently |
| Splitter.SplitStatements | indexer/internal/db/migrate.go:215-266 | the scanner yields exactly the statements of the plain description: comment lines outside a literal dropped, cuts at semicolons after an even number of quotes, Unicode white space trimmed, empties dropped; it fails exactly on `$$` or an odd number of quotes |
| Splitter.ScanLine | indexer/internal/db/migrate.go:231-256 | one line scanned, the `''` lookahead included, extends the description by exactly that line |
| Splitter.PiecesExtend | indexer/internal/db/migrate.go:246-254 | one more character opens a new piece after an unquoted semicolon and extends the last one otherwise |
| SqlText.CommentMeans | indexer/internal/db/migrate.go:225-229 | a line is a comment if and only if it is white space, code point by code point as Unicode has it, and then two dashes |
| SqlText.CommentsChangeNothing | indexer/internal/db/migrate.go:225-229 | such a line without `$$`, put anywhere in a script where no literal is open, changes neither the statements nor the error |
| SqlText.SplitMeans | indexer/internal/db/migrate.go:215-266 | for a script without comment lines, told by characters and counted quotes alone: `$$` is refused, then an odd number of quotes; otherwise the statements are the one list that lies in the text in order, each from ink to ink with no outer semicolon inside, an outer semicolon between any two, and nothing but white space and outer semicolons around them |
| SqlText.LayoutIsUnique | indexer/internal/db/migrate.go:215-266 | a text has at most one such list |
| SqlText.LinesMeans | indexer/internal/db/migrate.go:224 | the lines are those whose join by newlines is the text |
| Scripts.SplitUndoesPrint | indexer/internal/db/migrate.go:215-266 | clean statements printed with `;` and a newline come back |
| Scripts.SplitUndoesPrintExactly | indexer/internal/db/migrate.go:215-266 | they come back if and only if every one is clean |
| SqlText.PlainStatementsComeBack | indexer/internal/db/migrate.go:215-266 | the same with clean told by characters: ink at both ends, an even number of quotes, no semicolon and no comment line outside its literals, no `$$` |
| Scripts.NothingWasDropped | indexer/internal/db/migrate.go:225-229 | if what was printed comes back, no line of the script was taken for a comment |
| Scripts.TrailingCommentLeaks | indexer/internal/db/migrate.go:225-229 | `a;--b` splits into `a` and `--b`, and those two do not come back |
| MigrationFiles.SameLabel | indexer/migrations/migrations.go:158-184 | two file names say the same if and only if they differ at most in a plus sign for a leading zero |
| MigrationFiles.NameParses | indexer/migrations/migrations.go:158-184 | every name of four characters worth a positive number, an underscore, a non-empty label and a suffix parses to just that |
| MigrationFiles.FilenameRestores | indexer/migrations/migrations.go:48-51 | the name printed for a migration is its file's, up to that plus sign |
| MigrationFiles.ReadEntries | indexer/migrations/migrations.go:76-118 | the three maps hold exactly the last file of each version and direction and one name per version; otherwise it names the first entry at fault and its fault |
| MigrationFiles.RequireContiguous | indexer/migrations/migrations.go:147-155 | accepts exactly versions 1..n, and otherwise points at the first version out of place |
| MigrationFiles.ContiguousWhenDense | indexer/migrations/migrations.go:136-155 | sorted positive versions are contiguous if and only if each above 1 has the one below it |
| MigrationFiles.Parse | indexer/migrations/migrations.go:70-142 | succeeds if and only if the directory is well formed, and returns versions 1..n, each made of its last up and down file, none dropped; otherwise it reports a fault that is there, in the order the code looks for them |
| Directories.NameMeans | indexer/migrations/migrations.go:158-184 | a file name is read as a version, label and direction if and only if it is four characters that spell the positive version, an underscore, the label and `.up.sql` or `.down.sql` |
| Directories.WellFormedMeans | indexer/migrations/migrations.go:70-155 | the accepted directories, told by names and bodies alone: flat, every `.sql` file so named and with some ink, one label per version, an up file exactly where there is a down file, no version without the one below it |
| Directories.DescribesMeans | indexer/migrations/migrations.go:104-133 | a migration's label and two bodies are those of the last files named for its version |
| Directories.For | indexer/migrations/migrations.go:54-62 | an engine's migrations are those of its directory, versions 1 to n, if and only if that is good; an unknown engine is refused |
| MigrationFiles.EveryFileUsed | indexer/migrations/migrations.go:104-117 | a well-formed directory uses every migration file if and only if no two names differ only in a plus sign for a leading zero |
| MigrationFiles.TwinIsIgnored | indexer/migrations/migrations.go:104-117 | `+001_x.up.sql`, `0001_x.down.sql` and `0001_x.up.sql` make a well-formed directory whose first file is read and not used |
| Migrations.Runner.InTransaction | indexer/internal/db/migrate.go:145-175 | schema and record change together or not at all; on success there are states from the old schema to the new one, each the effect of the next of the file's statements on the one before; with no fault it succeeds if and only if the file splits, holds a statement, such states exist and the version is not recorded yet |
| Migrations.EffectTakes | indexer/internal/db/migrate.go:145-175 | the effect the theorems below speak of is exactly that chain of states: one statement of the file at a time, all of them, in order |
| Migrations.Runner.ApplyOne | indexer/internal/db/migrate.go:126-133 | one step up takes the schema through the statements of that migration's up file and records its version and name, or changes nothing; from a consistent state the schema stays what the recorded prefix builds |
| Migrations.Runner.RevertOne | indexer/internal/db/migrate.go:135-140 | one step down takes it through the down file's statements and forgets the version, or changes nothing; a consistent state stays consistent |
| Migrations.Runner.RevertAbove | indexer/internal/db/migrate.go:81-92 | the loop reverses newest first and stops at the end or just before a version that could not be reversed |
| Migrations.Runner.Up | indexer/internal/db/migrate.go:36-60 | the versions it reports are the missing ones in order up to a failure, and it takes the schema through their up files one after another, every statement of each; on success everything from 1 to n is recorded under its file's name; with no fault it succeeds if and only if every statement of every missing file runs; from a consistent state the schema stays what the recorded prefix builds and success reaches n |
| Migrations.Runner.Down | indexer/internal/db/migrate.go:64-93 | the versions it reports are the recorded ones above the target, newest first, up to a failure, and it takes the schema through their down files, every statement of each; on success none of target+1..n is recorded; with no fault it succeeds if and only if every statement of those files runs; from a consistent state success reaches min(k, target) |
| Migrations.SchemaIsBuilt | indexer/internal/db/migrate.go:36-60 | the schema of level k is what carrying an empty database through the up files of 1..k in order makes of it, and there is none if and only if one of their statements does not run |
| Migrations.MissingRises | indexer/internal/db/migrate.go:46-60 | the versions Up goes through are those of 1..n not recorded, each once, oldest first |
| Migrations.AboveFalls | indexer/internal/db/migrate.go:81-92 | the versions Down goes through are the recorded ones above the target, each once, newest first |
| Migrations.Runner.Version | indexer/internal/db/migrate.go:99-124 | the highest recorded version with none missing below it, the dirty error only for a real gap, and k for a prefix 1..k |
| Migrations.Highest | indexer/internal/db/migrate.go:111-116 | the maximum of the recorded versions, or zero |
| Migrations.Runner.RunCalls | indexer/internal/db/migrate.go:36-124 | any sequence of the three, each failing anywhere, keeps the schema what the recorded prefix builds; coming back to a version restores the schema, and Version never finds a gap |
| Migrations.DownKeepsPrefix | indexer/internal/db/migrate.go:64-93 | a complete Down with n files takes 1..k to a prefix if and only if k <= n or there is nothing to reverse |
| Migrations.DownLeavesGap | indexer/internal/db/migrate.go:64-93 | it leaves a gap if and only if target < n < k, and otherwise the prefix that was to be left |
| Migrations.Runner.DownThenVersion | indexer/internal/db/migrate.go:64-124 | after a Down from 1..k that succeeds, Version answers Dirty exactly when target < n < k, and otherwise the level that is left |
| RateLimiter.Limiter.Sweep | apps/web/src/lib/http/rate-limit.ts:58-64 | once per window length, removes exactly the expired windows |
| RateLimiter.Limiter.Check | apps/web/src/lib/http/rate-limit.ts:67-84 | the new state and the answer are those of the limiter's definition |
| RateLimiter.SweepShowsExactly | apps/web/src/lib/http/rate-limit.ts:58-84 | for any clock, the answers are those of the limiter that never sweeps for all assignments of keys to it, if and only if no call follows a sweep that forgot an earlier call's window and reads a time before that window's end |
| RateLimiter.SweepIsInvisible | apps/web/src/lib/http/rate-limit.ts:58-84 | in particular for every clock that never goes back, every sequence of keys and any state under way |
| RateLimiter.ClockGoingBackShowsTheSweep | apps/web/src/lib/http/rate-limit.ts:58-84 | a concrete run of three calls, the last reading an earlier time than the sweep before it, that the two limiters answer differently |
| RateLimiter.ForgottenWindowAdmitsTwice | apps/web/src/lib/http/rate-limit.ts:58-84 | a concrete run in which a window of limit 1, swept and begun again at the same time, admits two calls |
| RateLimiter.RetainsOnlyRecent | apps/web/src/lib/http/rate-limit.ts:58-64 | after every check each retained window is younger than two window lengths and was begun by a past call |
| RateLimiter.WindowAdmitsItsFirst | apps/web/src/lib/http/rate-limit.ts:67-84 | without the sweep a window admits exactly its first calls, up to the limit, whatever the clock reads |
| RateLimiter.RemainingIsExact | apps/web/src/lib/http/rate-limit.ts:79-82 | after an answer, exactly `remaining` of the calls still to come are admitted in its window, or all of them if there are fewer, whatever the clock reads |
| RateLimiter.ResetIsExact | apps/web/src/lib/http/rate-limit.ts:67-84 | of two calls of one key, sweep included: before the first one's `resetAt` the second counts one more in the same window, at or past it the second opens a window of its own with limit - 1 left, reset one window length later |
| RateLimiter.IntervalAdmits | apps/web/src/lib/http/rate-limit.ts:67-84 | what an interval of one window length can still admit, from any state and for any clock: each time the clock goes back into it lets in up to limit - 1 more |
| RateLimiter.RunAdmits | apps/web/src/lib/http/rate-limit.ts:58-84 | over any run of the sweeping limiter with a clock that never goes back, any interval of one window length admits at most 2 * limit - 1, and each window exactly its first calls up to the limit |
| RateLimiter.ClockRunAdmits | apps/web/src/lib/http/rate-limit.ts:58-84 | over any run of the sweeping limiter whose clock does not show the sweep, the same of windows, and 2 * limit - 1 plus limit - 1 for each return of the clock of intervals |
| RateLimiter.LoneKeySweepsAlike | apps/web/src/lib/http/rate-limit.ts:58-84 | with a single key the sweep never shows, whatever the clock reads |
| RateLimiter.IntervalBoundIsReached | apps/web/src/lib/http/rate-limit.ts:58-84 | for every limit, every window of at least 2 ms and every number of returns of the clock a run of the sweeping limiter reaches that bound; without returns its clock never goes back |
| Boundary.RestMeaning | indexer/internal/api/handlers.go:251-296 | the REST parser yields a query if and only if the text asks for it: digits worth a limit in 1..500, a known order, an int64 cursor, non-negative bounds that are not inverted, valid filter text |
| Boundary.SurfacesAgree | indexer/internal/api/graphql.go:458-522 | both surfaces give the typed meaning of the arguments: the same query, or the same first code in argument order |
| Boundary.GraphCoversRest | indexer/internal/api/graphql.go:458-501 | every REST query whose ledgers fit an Int can be asked over GraphQL |
| Boundary.StoreAccepts | indexer/internal/api/handlers.go:251-296 | whatever REST lets through the store runs as asked: same page size, order and cursor id |
| Boundary.StoreAcceptsTyped | indexer/internal/api/graphql.go:458-501 | so does whatever GraphQL lets through |
| Boundary.CursorsComeBack | indexer/internal/validate/events.go:100-112 | every cursor the store hands out passes the boundary unchanged |
| Boundary.EventLimitReads | indexer/internal/validate/events.go:61-78 | a limit is accepted exactly when absent or digits worth 1..500 |
| Boundary.LedgerBoundReads | indexer/internal/validate/events.go:119-131 | a bound is accepted exactly when absent or digits that fit an int64 |
| Boundary.EventCursorReads | indexer/internal/validate/events.go:100-112 | a cursor is accepted exactly when absent or digits that fit an int64 |
| Boundary.PrintedBound | indexer/internal/api/graphql.go:517-522 | a typed ledger reaches the validator as itself, and a negative one is refused |
| Boundary.PrintedLimit | indexer/internal/api/graphql.go:517-522 | a typed limit reaches the validator as itself, and one outside 1..500 is refused |
| EventFilters.QueryRoundTrip | apps/web/src/lib/events-filters.ts:74-86 | form-urlencoded text parses back to the pairs it was made of, for any bytes |
| EventFilters.SerializeMeans | apps/web/src/lib/events-filters.ts:85 | the text of some pairs is `key=value` joined by ampersands, and no other text is |
| EventFilters.EncodeMeans | apps/web/src/lib/events-filters.ts:85 | a byte is written as a plus for a space, as itself when unreserved, and otherwise as a percent sign and two upper-case hex digits, high one first |
| EventFilters.DecodeMeans | apps/web/src/lib/events-filters.ts:49-68 | a plus reads as a space, a percent sign with two hex digits of either case as their byte, anything else as itself |
| EventFilters.EncodeDecodes | apps/web/src/lib/events-filters.ts:74-86 | percent-encoding is undone by decoding and leaves no separator |
| EventFilters.ReadEventFilters | apps/web/src/lib/events-filters.ts:49-68 | fills each field from its own key: `name` and `topic` trimmed and not empty, `from` and `to` a number that is not negative, `order` `asc` or `desc` |
| EventFilters.EventFiltersToQuery | apps/web/src/lib/events-filters.ts:74-86 | the text is the form-urlencoding of the pairs `name`, `topic`, `from`, `to` and `order`, in that order, each present exactly when its filter is set |
| EventFilters.FiltersRoundTrip | apps/web/src/lib/events-filters.ts:49-86 | serialize-then-read gives the filters back if and only if they are canonical |
| EventFilters.ReadIsCanonical | apps/web/src/lib/events-filters.ts:49-68 | whatever is read is canonical |
| EventFilters.Normalize | apps/web/src/lib/events-filters.ts:49-86 | writing back what was read from any query string reads the same again |
| EventFilters.DecimalIsLawful | apps/web/src/lib/events-filters.ts:37-41 | the laws asked of trim, Number and String can be met |
| Backoff.Run | indexer/internal/rpc/events.go:100-127 | each wait is the interval after a success and the k-fold backed-off wait after the k-th failure in a row; cancellation ends the loop |
| Backoff.WaitDoubles | indexer/internal/rpc/events.go:138-147 | the wait after k failures is min(60 s, interval * 2^(k-1)) for intervals up to 60 s |
| Backoff.FloorIsKeptBelowCeiling | indexer/internal/rpc/events.go:136-147 | no wait is below the interval if and only if the interval is at most 60 s |

## Left out

- Whole components: HTTP serving, routing, authentication, the GraphQL engine, configuration, logging, the React application and the SDK's schemas other than those of the event query and the decoded value are not part of this model.
- SQL engines: a table is a sequence of rows and a statement its meaning; isolation levels, lock conflicts, driver limits on bound parameters and the two dialects' rendering of topic values are not modelled. Topic matching is substring search over given texts.
- Time, strkey, XDR and base64 decoding: whether an event decodes, and to what, is part of the chain event. Encoders are functions with stated laws.
- Goroutines, timers and cancellation inside a call: a failed call stands for both.
- Contract status changes, listing, statistics and reading one event by id: they would only add easy members.
- Store.Database.CommitTx: a commit whose success the network loses on the way back is not modelled; a failed commit is rolled back, as the code assumes.
- Migrations.Runner.InTransaction: likewise, a failed commit is rolled back; the applied-at time is not modelled.
- MigrationFiles.Parse: when several versions lack a file, which one is reported depends on map order in the code, and the model leaves it open.
- Splitter.SplitStatements: a script is a sequence of Unicode characters, so text that is not valid UTF-8 is not modelled.
- Decoder.Decoder.Decode: the counter is an unbounded integer, so overflow of an int64 is not modelled.
- Client.Events: a parameter reaches the boundary as it was sent, and a page the client; percent-encoding, headers, timeouts and the schemas of responses are not modelled, and every failure of a request is one error.
- Json.RoundTrip: is about JSON trees; the text layer is not modelled.
- Backoff.Run: durations are unbounded integers, so overflow of a 64-bit duration is not modelled.
- EventFilters.QueryRoundTrip: strings are the bytes of their UTF-8 form, so lone surrogates, which encoding replaces, are not modelled.
- EventFilters.FiltersRoundTrip: ledgers are integers, so a filter object holding a fraction or NaN is not modelled.
- RateLimiter.Limiter.Check: times are integers, and a fractional clock is not modelled.
