# Verified model of the R glue around the engine

This project models the logic between R and the vendored engine, a few vendored operators, and two planning
scripts, and proves what they promise. Check it with `dafny verify dfyconfig.toml`.

| files | what is modelled |
|---|---|
| `LambdaRows`, `LambdaBatches`, `LambdaExecution` | `list_filter` and `list_transform`: elements of many lists are packed into fixed-size batches that ignore row boundaries, and a cursor rebuilds the rows |
| `ParquetColumnReader` | reading a Parquet column page by page with deferred skips, dropped pages and selective reads, refined to one cursor over a flat column |
| `Lz4Hadoop` | the Hadoop framing of LZ4 pages, as a decoder and as a description of the framings |
| `ArrowSource`, `ArrowChunkSource` | re-batching a result's chunks into Arrow batches |
| `ArrowQuery`, `ArrowQueryResult` | the life of an Arrow query result from execution over hand-over to release |
| `ArrowRegistry`, `ArrowOpenResults`, `CallbackScope` | the locked registry of open results, threads that release results, and destruction deferred by callbacks |
| `FilterPushdown` | translating table filters to Arrow expressions under Kleene logic |
| `DataFrameScan`, `MatrixColumns` | parallel scans of data frames, and matrix columns scanned into ARRAY rows and back |
| `ParquetWrite` | row buffers flushed or merged by many threads |
| `ParquetLevels`, `ParquetSchema`, `ParquetColumnWriter` | the schema of nested types, their definition and repetition levels, and marking shredded groups required |
| `Altrep`, `AltrepWrappers` | lazy materialisation of relations behind ALTREP columns |
| `Aggregates` | R's min, max and sum as partial aggregates |
| `Partitioner`, `CostMap` | cutting commits into CI legs, and estimating what a change rebuilds |
| `Arithmetic`, `Sequences`, `Wrappers` | shared definitions |

Code that updates objects or loops over buffers is modelled as classes, arrays and loops. Each such method is
tied to a function on values, and the lemmas are about that function, over all inputs, all runs or all
interleavings. Runs are sequences of steps, one per section that the source protects by a lock, or per call
where one thread is at work.

Three promises are met by the code only under a condition, which is proved with them:

* IS NULL is pushed down for the bare column whatever its operand is. `FilterPushdown.IsNullFaithful` says for
  which operands that keeps the meaning on all rows, and `IsNullOfConstantFails` gives one for which it does not.
  Nothing shows that the engine pushes such an operand down: src/register.cpp:210-211 says that a filter
  expression binds its one column. The other pushdown lemmas ask for bare operands.
* The count of rows left in a row group is not kept for a root column of NULLs, which is never physically
  read: `ParquetColumnReader.ColumnReader.RowsLeftAreAccounted`, and `RowsLeftAreMiscounted` for an input.
* A column that is read again while its own vector is being allocated (by a finalizer, say) is converted
  twice. `Altrep.Lifecycle` holds for all runs in which that does not happen. `Altrep.GuardIsExact` and
  `Altrep.SafeExactlyWhenGuarded` show that these are exactly the harmless ones, and `Altrep.HarmIsReachable`
  that harm can be done from the start.

## Model

| member | source | states |
|---|---|---|
| LambdaExecution.Executor.Execute | src/duckdb/extension/core_functions/lambda_functions.cpp:275-366 | in terms of sel, entries, child and the lambda alone: a row that is not NULL holds, for list_transform, the lambda's value for each element of its list with its row and index, and, for list_filter, exactly the elements the lambda answers TRUE for, in order; NULL rows stay NULL, entries follow on each other, and there is nothing else, wherever batches cut rows |
| LambdaExecution.Executor.ExecuteRowByRow | src/duckdb/extension/core_functions/lambda_functions.cpp:275-366 | the batched run leaves the result child, validity and entries of the rows taken one by one, for every vector size |
| LambdaExecution.Executor.AppendFiltered | src/duckdb/extension/core_functions/lambda_functions.cpp:119-168 | one batch, wherever it starts and ends, moves the cursor, sets the entries of the rows it completes and appends the kept elements |
| LambdaExecution.Executor.ConsumeElement | src/duckdb/extension/core_functions/lambda_functions.cpp:133-152 | one element, kept or not; the last one of its list sets the entry and resets the cursor |
| LambdaExecution.Executor.SkipEmptyRows | src/duckdb/extension/core_functions/lambda_functions.cpp:126-131 | empty and NULL lists at the cursor get length 0 at the current offset |
| LambdaExecution.Executor.FlushBatch | src/duckdb/extension/core_functions/lambda_functions.cpp:194-221 | running the lambda on a batch appends what comes of its elements |
| LambdaExecution.Executor.PackRow | src/duckdb/extension/core_functions/lambda_functions.cpp:321-349 | the elements of a row are packed, and every batch that fills up is run |
| LambdaExecution.Executor.BeginRow | src/duckdb/extension/core_functions/lambda_functions.cpp:303-319 | a row's length is noted, or its entry is set right away, and a NULL row is marked |
| LambdaBatches.BatchesBuildRows | src/duckdb/extension/core_functions/lambda_functions.cpp:119-167 | the batched form refines the per-row one: after the last batch the child vector and all entries are those of the rows taken one by one |
| LambdaBatches.AppendSound | src/duckdb/extension/core_functions/lambda_functions.cpp:125-153 | whatever prefix of the remaining elements a batch holds, the cursor's sums and the entries set so far stay right |
| LambdaBatches.RunIsSound | src/duckdb/extension/core_functions/lambda_functions.cpp:303-350 | after any number of rows, all is done but for the elements still in the batch |
| LambdaBatches.NothingLeft | src/duckdb/extension/core_functions/lambda_functions.cpp:155-160 | with no element left, the trailing skip has brought the cursor past the last row |
| LambdaRows.EntryDelimitsRow | src/duckdb/extension/core_functions/lambda_functions.cpp:143-149 | an entry's offset and length cut exactly its row's kept elements, in order, out of the result child |
| LambdaRows.EmptyRowsGiveEmptyEntries | src/duckdb/extension/core_functions/lambda_functions.cpp:308-319 | NULL and empty rows get entries of length 0, whatever the lambda |
| LambdaRows.EmitIsMap | src/duckdb/extension/core_functions/lambda_functions.cpp:97-100 | list_transform gives one result per element, in place |
| LambdaRows.RowsGiveFilterResult | src/duckdb/extension/core_functions/lambda_functions.cpp:119-168 | the rows taken one by one are the lists filtered: for each list there are increasing positions, exactly those of the elements for which the lambda answers TRUE, whose elements the row's entry cuts out of the result child |
| LambdaRows.RowsGiveTransformResult | src/duckdb/extension/core_functions/lambda_functions.cpp:321-349 | the rows taken one by one are the lists transformed, element k of a list giving value k at the length of the rows before it plus k |
| ParquetColumnReader.Replay | src/duckdb/extension/parquet/column_reader.cpp:758-1055 | any sequence of skips, reads and selective reads on a column gives what one cursor over the rows of all pages would give, and leaves the cursor where it would be |
| ParquetColumnReader.ColumnReader.Read | src/duckdb/extension/parquet/column_reader.cpp:900-909 | a read gives the rows at the cursor, whatever was skipped or read before; a root column of NULLs gives NULLs |
| ParquetColumnReader.ColumnReader.Skip | src/duckdb/extension/parquet/column_reader.cpp:998-1000 | a skip moves the cursor and nothing else |
| ParquetColumnReader.ColumnReader.ApplyPendingSkips | src/duckdb/extension/parquet/column_reader.cpp:1002-1055 | pending skips move the reader to the cursor; a page dropped by a skip is consumed inside it, so no later read sees it |
| ParquetColumnReader.ColumnReader.BeginRead | src/duckdb/extension/parquet/column_reader.cpp:758-767 | the shared transport is put back where this column left it, and deferred skips are applied if the caller has level buffers |
| ParquetColumnReader.ColumnReader.PreparePage | src/duckdb/extension/parquet/column_reader.cpp:359-424 | opening a page keeps the reader's position; a data page is dropped exactly when the skip covers it; dictionary and other pages have no rows |
| ParquetColumnReader.ColumnReader.ReadPageHeaders | src/duckdb/extension/parquet/column_reader.cpp:769-778 | the page loop ends at a page with rows, at the same position, and gives the smallest of what was asked, what the page has and the vector size |
| ParquetColumnReader.ColumnReader.PrepareRead | src/duckdb/extension/parquet/column_reader.cpp:780-804 | levels come out in order, or all are known to be defined |
| ParquetColumnReader.ColumnReader.ReadData | src/duckdb/extension/parquet/column_reader.cpp:806-864 | the next rows of the open page land behind those read so far, NULLs where they are NULL; a dropped page would give NULLs |
| ParquetColumnReader.ColumnReader.DecodeRows | src/duckdb/extension/parquet/column_reader.cpp:821-863 | levels and values advance together; a nested column of NULLs takes no values |
| ParquetColumnReader.ColumnReader.ReadInternal | src/duckdb/extension/parquet/column_reader.cpp:873-898 | a vector is filled from as many pages as it takes |
| ParquetColumnReader.ColumnReader.Plain | src/duckdb/extension/parquet/include/column_reader.hpp:274-292 | only defined rows take a value; the others become NULL and nothing else changes |
| ParquetColumnReader.ColumnReader.PlainSkip | src/duckdb/extension/parquet/include/column_reader.hpp:294-311 | exactly the values of the defined rows are passed over |
| ParquetColumnReader.ColumnReader.PlainSelect | src/duckdb/extension/parquet/include/column_reader.hpp:320-350 | selected rows hold the page's rows, and all values of the page's rows are taken, selected or not |
| ParquetColumnReader.ColumnReader.Select | src/duckdb/extension/parquet/column_reader.cpp:911-919 | a selective read gives the selected rows at the cursor and moves it past all rows asked for |
| ParquetColumnReader.ColumnReader.DirectSelect | src/duckdb/extension/parquet/column_reader.cpp:921-945 | the same inside one page or across pages, with the rows left accounted for |
| ParquetColumnReader.ColumnReader.RowsLeftAreAccounted | src/duckdb/extension/parquet/column_reader.cpp:866-871 | rows left equal the total less those consumed and not pending, if and only if the column is not a root column of NULLs (or nothing was consumed) |
| ParquetColumnReader.RowsLeftAreMiscounted | src/duckdb/extension/parquet/column_reader.cpp:900-909 | a root column of one NULL: once its row is read, it still counts as left |
| ParquetColumnReader.PageSplit | src/duckdb/extension/parquet/column_reader.cpp:780-863 | splitting a page's levels after n rows splits its values where n rows' defined values end |
| ParquetColumnReader.LayOut | src/duckdb/extension/parquet/column_reader.cpp:359-424 | the rows of all pages, page by page, are the flat column |
| Lz4Hadoop.TryDecompressLz4Hadoop | src/duckdb/extension/parquet/column_reader.cpp:553-595 | true exactly when the source decodes to as many bytes as the destination holds, which then holds them; all reads and writes stay in bounds and the loops end |
| Lz4Hadoop.DecompressBlock | src/duckdb/extension/parquet/column_reader.cpp:556-592 | one block: what is still to be decoded is unchanged, or the verdict is the decoder's |
| Lz4Hadoop.DecompressChunks | src/duckdb/extension/parquet/column_reader.cpp:570-592 | the chunks of a block, each within the source and the room left |
| Lz4Hadoop.DecompressChunk | src/duckdb/extension/parquet/column_reader.cpp:572-591 | one chunk: what is still to be decoded is unchanged, or nothing can be decoded |
| Lz4Hadoop.DecodesExactlyFramings | src/duckdb/extension/parquet/column_reader.cpp:553-595 | decoding succeeds with some content if and only if the source is a framing of that content: blocks of non-empty chunks, at most one zero size, at the very end, and nothing behind |
| Lz4Hadoop.RoundTrip | src/duckdb/extension/parquet/column_reader.cpp:553-595 | however bytes are cut into blocks and chunks, their framing decodes to them |
| Lz4Hadoop.LoadStore | src/duckdb/extension/parquet/column_reader.cpp:560-562 | four bytes are the big-endian form of exactly one 32-bit number |
| Lz4Hadoop.DecompressLz4 | src/duckdb/extension/parquet/column_reader.cpp:607-622 | a page that is no framing is tried as a raw block, and a destination that is not filled is an error |
| ArrowChunkSource.ArrowChunkSource.LoadNextChunk | src/arrow_export.cpp:164-200 | a kept error is thrown again, an end stays an end, a closed stream ends, and otherwise the next chunk is loaded or the error kept |
| ArrowChunkSource.ArrowChunkSource.FetchArray | src/arrow_export.cpp:202-222 | the loop over chunks gives what the recursive read gives, and leaves the source as it does |
| ArrowChunkSource.ArrowChunkSource.EndForAnotherStatement | src/arrow_export.cpp:136-142 | only an open stream is marked and closed |
| ArrowChunkSource.ArrowChunkSource.GetNext | src/arrow_export.cpp:380-388 | a source marked as ended answers with an error and is not read |
| ArrowSource.FetchArrayReads | src/arrow_export.cpp:202-222 | a read gives the next rows, at most as many as asked, fewer only at the end, or fails and keeps the error |
| ArrowSource.FetchArrayExactly | src/arrow_export.cpp:164-222 | of a source that kept no error and was not cut, a read gives exactly the next rows asked for, or all that are left where the engine ends, and fails exactly if it needs a chunk from behind the engine's failure |
| ArrowSource.BatchesAreTheRows | src/arrow_export.cpp:202-222 | over any batch sizes, the batches concatenate to the next rows without gap or repetition until a read fails |
| ArrowSource.ShortIsLast | src/arrow_export.cpp:206-216 | behind a short batch there are only empty ones |
| ArrowSource.ShortCompletes | src/arrow_export.cpp:206-216 | no batch is larger than asked for, and a short one of a stream not cut short completes all rows |
| ArrowSource.FailsForEver | src/arrow_export.cpp:167-171 | behind a failed read every read fails with the same error |
| ArrowSource.LoadedOk | src/arrow_export.cpp:164-200 | loading a chunk takes no rows, and ends or fails the source exactly when it says so |
| ArrowSource.LoadedExactly | src/arrow_export.cpp:164-200 | a load gives a chunk while there is one, fails exactly if the engine fails next, and ends exactly if it ends |
| ArrowQuery.NoSilentTruncation | src/arrow_export.cpp:164-222 | over every run of execute, fetch, hand-over, release and other statements: rows arrive in order without gaps, and a clean end means all rows were delivered and nothing failed |
| ArrowQuery.EveryReadIsAnswered | src/arrow_export.cpp:164-222 | over every run, a read of a result that was not cut answers exactly the next rows it asks for, fewer only at the end, and an error exactly where it needs rows from behind the engine's failure, or has met it before |
| ArrowQuery.HealthyReadsSucceed | src/arrow_export.cpp:164-222 | so over every run a result whose engine does not fail answers rows while rows are left, and an end after that, whoever holds it |
| ArrowQuery.EndedTellsSo | src/arrow_export.cpp:380-388 | over every run a read of a result that was cut answers with the message that says so |
| ArrowQuery.HandedOverToConsumer | src/arrow_export.cpp:420-452 | a result that can be read can be handed to a consumer, with the error it has kept, if any |
| ArrowQuery.ConsumerKeepsStream | src/arrow_export.cpp:420-452 | over every run a consumer's stream stays its own until it is released, whatever becomes of the query result |
| ArrowQuery.HolderStays | src/arrow_export.cpp:478-552 | who holds a result changes only when it is wrapped, read to its end, handed over, released or dropped |
| ArrowQuery.GoneStays | src/arrow_export.cpp:478-552 | over every run a result that nobody holds any more is registered nowhere, and stays so |
| ArrowQuery.EndedForAnotherFails | src/arrow_export.cpp:380-388 | a result ended by another statement while it held its query open answers every later read with an error |
| ArrowQuery.WrapFaithful | src/arrow_export.cpp:437-440 | the mark of an ended result survives the hand-over to a stream |
| ArrowQuery.OpenIsTracked | src/arrow_export.cpp:124-129 | whoever can read an open stream is registered for its connection |
| ArrowQuery.GetNextFaithful | src/arrow_export.cpp:380-388 | a read goes on behind the rows delivered, fails, or has nothing left |
| ArrowQuery.OtherStatementFaithful | src/statement.cpp:104-109 | another statement marks and closes an open result, and leaves one at its end alone |
| ArrowQuery.FetchFaithful | src/arrow_export.cpp:478-512 | fetching keeps delivered rows a prefix, and fails once the result was ended |
| ArrowQuery.HandOverFaithful | src/arrow_export.cpp:420-452 | handing a result or its stream to a consumer keeps what was delivered and what is marked |
| ArrowQuery.ObserveFaithful | src/include/rapi.hpp:392-418 | every step keeps the history of every reader faithful |
| ArrowQuery.EveryRunIsFaithful | src/include/rapi.hpp:392-418 | so does every run |
| ArrowQueryResult.QueryResult.FetchArrowArray | src/arrow_export.cpp:478-512 | the query result's fields move as the fetch step does; at the end the stream is let go |
| ArrowQueryResult.QueryResult.FetchArrowStreamInto | src/arrow_export.cpp:420-452 | a kept or new stream goes to the caller and is no longer here |
| ArrowQueryResult.QueryResult.RecordBatch | src/arrow_export.cpp:555-575 | only a result not yet wrapped can be handed on this way |
| ArrowQueryResult.QueryResult.EndForAnotherStatement | src/statement.cpp:104-109 | a result still held is marked and closed |
| ArrowQueryResult.QueryResult.EndOpenResult | src/arrow_export.cpp:92-109 | whichever of the result and its stream is registered is ended and no longer registered |
| ArrowQueryResult.QueryResult.TakeResult | src/include/rapi.hpp:406-409 | the result is handed on and no longer registered |
| ArrowQueryResult.QueryResult.Wrap | src/arrow_export.cpp:112-130 | the new stream is registered exactly if it streams, and carries the mark |
| ArrowQueryResult.QueryResult.ReleaseArrowResult | src/arrow_export.cpp:546-552 | the result and the stream it keeps are let go |
| ArrowOpenResults.OpenResults.Track | src/arrow_export.cpp:71-76 | registers a result for a context, and for no other; the registry stays consistent |
| ArrowOpenResults.OpenResults.Untrack | src/arrow_export.cpp:78-90 | unregisters a result, and drops a list that becomes empty; the registry stays consistent |
| ArrowOpenResults.OpenResults.EndOpenResults | src/arrow_export.cpp:92-109 | first destroys what was parked, unless a callback runs, which unregisters it; then ends exactly the results still registered for the context, leaves none registered for it and every other result as it was, and the registry consistent |
| ArrowOpenResults.OpenResults.Drain | src/arrow_export.cpp:93-94 | exactly what was parked is destroyed and unregistered, in order; inside a callback nothing is |
| ArrowRegistry.TrackedIsListed | src/arrow_export.cpp:63-69 | a result is registered for a context exactly when it occurs once in its list, and otherwise not at all |
| ArrowRegistry.TrackKeeps | src/arrow_export.cpp:71-76 | registering keeps the registry consistent and changes one result's context |
| ArrowRegistry.UntrackKeeps | src/arrow_export.cpp:78-90 | unregistering keeps the registry consistent and leaves other contexts' lists alone |
| ArrowRegistry.UntrackAllKeeps | src/arrow_export.cpp:93-94 | so does destroying everything parked, which unregisters exactly that |
| ArrowRegistry.EndAllKeeps | src/arrow_export.cpp:92-109 | after ending a context nothing is registered for it, and everything else is as it was |
| ArrowRegistry.EveryInterleavingIsOk | src/arrow_export.cpp:63-109 | under every interleaving of R's thread and releasing threads the registry is consistent whenever the lock is free, and half-way ended otherwise |
| ArrowRegistry.NeverFreedWhileEnded | src/arrow_export.cpp:95-98 | no result is freed, or past unregistering itself, while it waits to be ended |
| ArrowRegistry.FinishedEnding | src/arrow_export.cpp:104-108 | when the lock is given up, the registry is the one found without that context's results |
| ArrowRegistry.FreedAreUnlisted | src/arrow_export.cpp:132-134 | a freed result is in no list |
| ArrowRegistry.ParkedAreFreedFirst | src/arrow_export.cpp:93-94 | under every interleaving, what was parked when results are to be ended outside of callbacks is freed, and in no list, before any result is ended |
| CallbackScope.Callbacks.Drain | src/statement.cpp:62-75 | nothing is destroyed inside a callback; otherwise exactly what was parked is destroyed, in order, and what destroying parks waits |
| CallbackScope.Callbacks.Run | src/statement.cpp:42-75 | over any sequence of entering and leaving callbacks, parking and draining, what was parked is destroyed in its order, each object once, and nothing while a callback runs |
| FilterPushdown.PushdownPreservesMeaning | src/register.cpp:268-441 | without optional filters the pushed expression has the filter's own Kleene truth value on every row |
| FilterPushdown.PushdownWeakensOnly | src/register.cpp:315-327 | with them, whichever parts fail to translate, its value lies between all optional filters strict and all of them TRUE |
| FilterPushdown.ExprTranslates | src/register.cpp:268-344 | a translated expression means the filter whose untranslatable optional parts are TRUE |
| FilterPushdown.FilterTranslates | src/register.cpp:346-451 | so does a translated table filter |
| FilterPushdown.TransformFilter | src/register.cpp:453-463 | the loop over columns gives an expression if and only if every filter can be translated, which is defined on the filters alone, and then one that lies between the two readings on every row |
| FilterPushdown.TranslatesExactly | src/register.cpp:268-344 | an expression is translated if and only if it compares the bare column with a constant, on either side, by one of the six ordinary comparators, is a conjunction of some translatable children, is optional, asks for NULL, or is an IN of at most 100 constants |
| FilterPushdown.FilterTranslatesExactly | src/register.cpp:346-451 | the same for table filters, legacy forms included |
| FilterPushdown.ExpandIn | src/register.cpp:397-422 | the loop that expands an IN list gives what the functional form gives |
| FilterPushdown.FoldBalancedMeaning | src/register.cpp:200-209 | the balanced tree means the chain, in its order |
| FilterPushdown.FoldBalancedDepth | src/register.cpp:197-209 | a chain of up to 2^k expressions nests k connectives |
| FilterPushdown.InIsShallow | src/register.cpp:195-195 | an IN list is pushed down exactly up to 100 values, and then nests at most seven connectives |
| FilterPushdown.InMeaning | src/register.cpp:234-266 | an expanded IN list is the disjunction of its equalities, FALSE if empty |
| FilterPushdown.InExpandsExactly | src/register.cpp:234-266 | an IN filter is pushed down if and only if it asks whether the bare column is one of at most 100 constants |
| FilterPushdown.IsNullFaithful | src/register.cpp:331-336 | IS NULL and IS NOT NULL keep their meaning on all rows if and only if the operand is the bare column, or computes NULL from NULL and a value from every value; never for a constant |
| FilterPushdown.IsNullOfConstantFails | src/register.cpp:331-332 | a constant operand for which they do not |
| DataFrameScan.Job.MaxThreads | src/scan.cpp:734-738 | rows by rows per task, rounded up |
| DataFrameScan.GlobalState.ParallelStateNext | src/scan.cpp:747-766 | a claim is found exactly while rows are unclaimed and takes the next range under the lock, of rowsPerTask rows but for the last; without one left the claim is empty |
| DataFrameScan.GlobalState.InitLocal | src/scan.cpp:768-777 | a thread starts with its first claim |
| DataFrameScan.GlobalState.ScanFunc | src/scan.cpp:779-814 | a call emits the next consecutive rows of the thread's claim, or of a new one, at most a vector of them and fewer only at the end of the claim, none past the last row, and nothing exactly when no rows are left for it |
| DataFrameScan.EveryRowExactlyOnce | src/scan.cpp:747-814 | for any number of threads and any interleaving, once all threads are done every row was emitted exactly once, and the claims number MaxThreads |
| DataFrameScan.NeverTwice | src/scan.cpp:747-814 | at no point of any run was a row emitted twice or past the end |
| DataFrameScan.StepAccounts | src/scan.cpp:752-765 | every row is always in exactly one place: unclaimed, in one claim, or emitted |
| MatrixColumns.RoundTrip | src/scan.cpp:281-299 | scanning an R matrix into ARRAY rows and converting it back gives the identical matrix, for every shape and every way of cutting the rows on either side |
| MatrixColumns.AppendMatrixSegment | src/scan.cpp:281-299 | a segment of rows is written row by row, NULL where R's value is missing |
| MatrixColumns.ScanMatrix | src/scan.cpp:281-299 | any chunks of it give the rows of the matrix |
| MatrixColumns.ScannedCell | src/scan.cpp:281-299 | element c of row r is the converted cell c * rows + r of the matrix, or NULL |
| MatrixColumns.TransformArrayVector | src/transform.cpp:388-445 | n ARRAY values become n rows of the column-major destination, and its other rows stay |
| MatrixColumns.TransformColumn | src/transform.cpp:388-445 | any chunks of a column give the whole destination |
| MatrixColumns.ConvertedCell | src/transform.cpp:388-445 | cell c * rows + r of a destination that holds the converted rows is element c of row r converted, or NA |
| MatrixColumns.WriteRow | src/transform.cpp:410-443 | one row is spread over the columns, and no other row changes |
| MatrixColumns.AtInjective | src/transform.cpp:408-413 | no two cells share a position |
| MatrixColumns.AtSurjective | src/transform.cpp:408-413 | every position is some cell's |
| MatrixColumns.RowsDetermineMatrix | src/transform.cpp:396-413 | a column-major matrix is determined by its rows |
| MatrixColumns.DecodeEncode | src/scan.cpp:291-295 | converting a scanned row back restores it, missing values included |
| ParquetWrite.WritesEveryRowOnce | src/duckdb/extension/parquet/parquet_extension.cpp:439-498 | under any interleaving the row groups of the finished file hold exactly the rows sunk, and all but at most the last written reach half of a limit |
| ParquetWrite.RowGroupsHaveOrigins | src/duckdb/extension/parquet/parquet_extension.cpp:439-488 | at any point of any run a sinking thread holds what it sank since some event, in order, and never a full buffer; each row group is such a buffer with the one chunk that filled it, or a thread's rest of at least half a limit, or several smaller rests, in the order of their combining, the last of which brought them to half a limit; the combine buffer holds such rests in order |
| ParquetWrite.RowGroupsAreBounded | src/duckdb/extension/parquet/parquet_extension.cpp:439-498 | with chunks of at most v rows every row group of the finished file has fewer than the row limit (if that is not 0) plus v rows, and what finalizing adds is below both half limits |
| ParquetWrite.FileOnlyGrows | src/duckdb/extension/parquet/parquet_extension.cpp:439-498 | over every run row groups are only added, at the end of the file |
| ParquetWrite.CombineBufferStaysSmall | src/duckdb/extension/parquet/parquet_extension.cpp:471-488 | whenever the lock is free the combine buffer is below both half limits |
| ParquetWrite.StepConserves | src/duckdb/extension/parquet/parquet_extension.cpp:439-488 | no step loses or duplicates a row |
| ParquetWrite.StepKeepsSizes | src/duckdb/extension/parquet/parquet_extension.cpp:439-488 | no step flushes a row group below both half limits |
| ParquetWrite.Writer.Sink | src/duckdb/extension/parquet/parquet_extension.cpp:439-455 | a buffer grows by its chunk, and is flushed as a row group exactly when it then reaches a limit |
| ParquetWrite.Writer.Combine | src/duckdb/extension/parquet/parquet_extension.cpp:457-488 | a half-full buffer is flushed, another joins the combine buffer, which is moved out once half full |
| ParquetWrite.Writer.Finalize | src/duckdb/extension/parquet/parquet_extension.cpp:490-499 | what is left in the combine buffer is flushed |
| Partitioner.Greedy | scripts/each-partition.py:128-144 | the loop gives a contiguous partition whose legs are single commits or within the deadline, with the fewest legs of all such partitions |
| Partitioner.StaysAhead | scripts/each-partition.py:128-144 | after every leg greedy has covered at least as many commits as any plan |
| Partitioner.FewestLegs | scripts/each-partition.py:128-144 | no plan that fits has fewer legs |
| Partitioner.GreedyIsPlan | scripts/each-partition.py:128-144 | greedy's legs fit, cover the commits in order, and each ends where it must |
| Partitioner.WarmMinutes | scripts/each-partition.py:112-114 | a warm build takes the floor and so many seconds for every object, up to a full build |
| Partitioner.WarmGrows | scripts/each-partition.py:112-114 | one more object costs its seconds, until a warm build is as long as a full one, and there it stays |
| Partitioner.SplitCost | scripts/each-partition.py:116-125 | cutting a leg in two costs one more setup and one more cold build, less the warm build it replaces |
| Partitioner.RunnerMinutesOfPlan | scripts/each-partition.py:158-159 | over any plan every leg pays one setup and one full build, and every other commit its warm build |
| Partitioner.ShorterDeadlineMoreLegs | scripts/each-partition.py:128-144 | a shorter deadline never gives fewer legs |
| Partitioner.Makespan | scripts/each-partition.py:147-155 | the loop over legs gives the list schedule's wall clock |
| Partitioner.ArgMin | scripts/each-partition.py:153-153 | the first of the least loaded slots |
| Partitioner.ScheduleIsListSchedule | scripts/each-partition.py:151-154 | the loads are those of legs placed oldest first, each on the first of the slots that the older legs leave earliest |
| Partitioner.ListScheduleExists | scripts/each-partition.py:152-154 | there is such a placement for any legs and any number of slots |
| Partitioner.ListScheduleUnique | scripts/each-partition.py:152-154 | and only one |
| Partitioner.MakespanOfSchedule | scripts/each-partition.py:147-155 | the wall clock is the load of the slot that is busy longest in that placement, on max(1, min(parallel, legs)) slots |
| Partitioner.LoadsAddUp | scripts/each-partition.py:151-159 | the slot loads always sum to the runner minutes of the legs placed |
| Partitioner.MakespanBounds | scripts/each-partition.py:147-155 | the makespan is at least the longest leg and an even share, and above an even share by at most (1 - 1/P) of the longest leg |
| Partitioner.SchedulesAreBalanced | scripts/each-partition.py:152-154 | no slot is further above an even share than that, at any point |
| Partitioner.Rebalance | scripts/each-partition.py:162-189 | always gives a plan whose legs are single or within the real deadline; when it runs, of all plans within the cost factor and the leg cap that are within a minute of the fastest of them, the first of the cheapest, where pass 1 comes first and then the sampled deadlines in order |
| Partitioner.ChoiceIsUnique | scripts/each-partition.py:186-189 | that pins the answer: no other plan fits the description |
| Partitioner.Family | scripts/each-partition.py:173-178 | exactly the plans of pass 1 and the sampled deadlines, each once, where it first occurs |
| Partitioner.CheapestOfFastest | scripts/each-partition.py:186-189 | some plan is the fastest, and the first of the cheapest within a minute of it is chosen |
| Partitioner.SizesPinPlan | scripts/each-partition.py:173-175 | leg sizes pin a contiguous plan |
| Partitioner.SampledDeadlineFits | scripts/each-partition.py:176-178 | legs within a sampled deadline are within the real one, whatever its sign |
| Partitioner.DeadlinesAreEven | scripts/each-partition.py:176-177 | the sampled deadlines are spread evenly between none and the real one |
| CostMap.ScanTree | scripts/each-cost.py:62-92 | the paths scanned are the files of the tree, with the includes of the last file of that name, and the index finds a path for a target exactly when the target is one of its suffixes |
| CostMap.RegisterSuffixes | scripts/each-cost.py:88-90 | a path is found under exactly its suffixes besides what was found before |
| CostMap.Spread | scripts/each-cost.py:123-136 | the search ends on cyclic includes and sets the bit of exactly the files reached |
| CostMap.MarkObjects | scripts/each-cost.py:117-136 | bit k of a file's mask is set exactly when object k's translation unit reaches the file over the scanned tables |
| CostMap.BuildMap | scripts/each-cost.py:109-142 | in terms of the tree alone: bit k of a file's mask is set exactly when object k is compiled from a file with a chain of includes to it, each include spelled by the last components of the next file; exactly the objects without a file are missing |
| CostMap.ReachesIsFileReaches | scripts/each-cost.py:128-136 | reach over the scanned tables is a chain of suffix-resolved includes in the tree |
| CostMap.Estimate | scripts/each-cost.py:145-153 | the count of bits is the number of distinct objects that some changed path belongs to |
| CostMap.EstimateCountsObjects | scripts/each-cost.py:145-153 | these are exactly the objects compiled from a file with a chain of includes to a changed path |
| CostMap.EstimateIsMonotone | scripts/each-cost.py:145-153 | more changed paths never cost less |
| CostMap.EstimateIsSubadditive | scripts/each-cost.py:145-153 | two changes together cost no more than one after the other |
| CostMap.PopCountIsSize | scripts/each-cost.py:153-153 | counting ones in binary counts the set bits |
| CostMap.OrBit | scripts/each-cost.py:152-152 | bitwise or is union |
| Aggregates.MinMaxAnyPartition | src/rfuns.cpp:420-489 | for both na.rm settings, any split of the rows, in whatever order, into vectors of rows and constant vectors, merged in any tree, answers what one serial fold of the rows answers, which is the best value, or NA |
| Aggregates.SumAnyPartition | src/rfuns.cpp:1019-1082 | the same for sum, which is the total, or NA, or 0 without values |
| Aggregates.MinMaxConstant | src/rfuns.cpp:448-462 | folding a constant row once is folding it any positive number of times |
| Aggregates.SumConstantIsRepeated | src/rfuns.cpp:1047-1058 | adding a constant row n times at once is n operations, up to a value nobody reads |
| Aggregates.BestIsUnique | src/rfuns.cpp:491-509 | min and max define one answer |
| Aggregates.TotalAround | src/rfuns.cpp:1033-1045 | in a total each value counts once, wherever it stands, and NULL counts nothing |
| Aggregates.MinMaxState.Operation | src/rfuns.cpp:433-446 | a NULL row without na.rm makes the state NULL for good; otherwise the first value is kept, and later ones when they are better |
| Aggregates.MinMaxState.ConstantOperation | src/rfuns.cpp:448-462 | a constant row has the effect of one operation, whatever its count |
| Aggregates.MinMaxState.Combine | src/rfuns.cpp:464-479 | a NULL source makes the target NULL, an empty one changes nothing, and otherwise the better value stays |
| Aggregates.MinMaxState.Finalize | src/rfuns.cpp:481-488 | NA when a NULL counts or nothing was seen |
| Aggregates.SumState.Operation | src/rfuns.cpp:1033-1045 | a NULL row without na.rm makes the state NULL for good; otherwise the value is added |
| Aggregates.SumState.ConstantOperation | src/rfuns.cpp:1047-1058 | it goes on adding after a NULL was seen |
| Aggregates.SumState.Combine | src/rfuns.cpp:1060-1072 | a NULL source makes the target NULL, an empty one changes nothing, and otherwise the totals add up |
| Aggregates.SumState.Finalize | src/rfuns.cpp:1074-1081 | NA when a NULL counts, the value otherwise |
| ParquetLevels.CreatedLevels | src/duckdb/extension/parquet/column_writer.cpp:297-467 | for every nested type the largest levels of each column are the numbers of OPTIONAL or REPEATED, and of REPEATED, nodes on its path in the schema |
| ParquetSchema.CreatedSchema | src/duckdb/extension/parquet/column_writer.cpp:297-467 | a type has writers if and only if it can be written, and their schema is the one defined on the type alone: lists over REPEATED list over OPTIONAL element, maps over REPEATED key_value over REQUIRED key and OPTIONAL value, structs over their OPTIONAL fields in order, variants over metadata, value and typed_value |
| ParquetSchema.CreatedColumns | src/duckdb/extension/parquet/column_writer.cpp:297-467 | so the columns of a type have the numbers of OPTIONAL or REPEATED, and of REPEATED, nodes on the paths of that schema as their largest levels |
| ParquetLevels.CreatedOk | src/duckdb/extension/parquet/column_writer.cpp:297-467 | so do the writers of all inner nodes, and no count goes below zero |
| ParquetLevels.LevelsArePathCounts | src/duckdb/extension/parquet/writer/list_column_writer.cpp:185-229 | writers that count the nodes above them count the paths of the schema that FinalizeSchema writes |
| ParquetLevels.Decrement | src/duckdb/extension/parquet/column_writer.cpp:143-149 | one OPTIONAL node fewer above: every level below follows, and none goes below zero |
| ParquetLevels.MarkRequired | src/duckdb/extension/parquet/column_writer.cpp:132-141 | marking a writer REQUIRED keeps all levels what their paths say |
| ParquetLevels.MarkGroup | src/duckdb/extension/parquet/writer/variant/convert_variant.cpp:34-41 | a shredded group becomes REQUIRED, as do all groups below it, and the levels follow |
| ParquetLevels.MarkTyped | src/duckdb/extension/parquet/writer/variant/convert_variant.cpp:44-54 | all groups below a typed value are REQUIRED, however deep |
| ParquetLevels.FinalizedLevels | src/duckdb/extension/parquet/writer/variant/convert_variant.cpp:56-94 | after every VARIANT has marked its groups the levels are still the counts on the paths |
| ParquetSchema.WrittenSchema | src/duckdb/extension/parquet/writer/variant/convert_variant.cpp:34-94 | the schema that is written is the one defined on the type, with exactly the groups of shredded values REQUIRED in place of OPTIONAL |
| ParquetSchema.WrittenColumns | src/duckdb/extension/parquet/writer/variant/convert_variant.cpp:34-94 | and the columns written have the levels of the paths of that schema |
| ParquetSchema.MarkedTyped | src/duckdb/extension/parquet/writer/variant/convert_variant.cpp:34-54 | marking a typed value makes exactly the groups below it REQUIRED, however deep, and changes nothing else in its schema |
| ParquetSchema.MarkRequiredIsCreate | src/duckdb/extension/parquet/column_writer.cpp:132-149 | marking a writer of shredded values REQUIRED gives the very writers that would have been created for a REQUIRED one |
| ParquetLevels.FoundShredding | src/duckdb/extension/parquet/writer/variant/analyze_variant.cpp:210-234 | a shredding found in the data gives the same writers as one that was asked for; asking for NULLs or for VARIANT itself gives the unshredded writer |
| ParquetLevels.TypedValueIsTyped | src/duckdb/extension/parquet/writer/variant/convert_variant.cpp:96-129 | whatever lies below a typed value as a field or an element is a group, so marking only ever meets groups |
| ParquetColumnWriter.ColumnWriter.DecrementMaxDefineRecursive | src/duckdb/extension/parquet/column_writer.cpp:143-149 | every writer of the tree of objects loses one definition level, and nothing else in it changes |
| ParquetColumnWriter.ColumnWriter.MarkRepetitionRequired | src/duckdb/extension/parquet/column_writer.cpp:132-141 | the writer becomes REQUIRED in place, and every level below it follows; one that is REQUIRED already stays |
| ParquetColumnWriter.ColumnWriter.MarkShreddedGroupRequired | src/duckdb/extension/parquet/writer/variant/convert_variant.cpp:34-41 | a group of the tree of objects and all groups below it become REQUIRED in place, as MarkGroup says |
| ParquetColumnWriter.ColumnWriter.MarkNestedTypedValue | src/duckdb/extension/parquet/writer/variant/convert_variant.cpp:22-41 | only the first child of that name is a typed value, and only what lies below it is marked |
| ParquetColumnWriter.ColumnWriter.MarkTypedValueShreddingGroupsRequired | src/duckdb/extension/parquet/writer/variant/convert_variant.cpp:44-54 | every group of the typed value is marked in place, as MarkTyped says |
| ParquetColumnWriter.ColumnWriter.FinalizeSchema | src/duckdb/extension/parquet/writer/variant/convert_variant.cpp:56-94 | over the whole tree of objects, every VARIANT marks its groups in place, as Finalize says |
| Altrep.Lifecycle | src/reltoaltrep.cpp:154-167 | the query completes at most once, the columns counted are the columns converted, and from its completion on the result is there exactly until all are, in particular while one is converting |
| Altrep.CountedOnce | src/reltoaltrep.cpp:435-456 | a conversion that completes had not completed before, even after failed or nested ones |
| Altrep.StepOk | src/reltoaltrep.cpp:169-253 | every guarded step keeps the relation, its columns and the nested conversions consistent |
| Altrep.GuardIsExact | src/reltoaltrep.cpp:436-439 | in every consistent state, a step is harmless (whatever guarded steps follow it, the result is there while a column converts and no column is counted twice) if and only if it does not access a column whose own vector is being allocated |
| Altrep.SafeExactlyWhenGuarded | src/reltoaltrep.cpp:436-439 | so a whole run is harmless up to any point if and only if it was guarded up to there |
| Altrep.GuardIsNeeded | src/reltoaltrep.cpp:436-439 | where the guard is broken, at whatever depth, the nested conversion can complete: then the result is gone under the outer one, or the outer one can count the column again |
| Altrep.HarmIsReachable | src/reltoaltrep.cpp:436-450 | a run from the start that ends with a column converting and the result gone: its one column is read again while it is allocated |
| Altrep.RowLimit | src/reltoaltrep.cpp:255-296 | exactly the relations with more rows than min(n_rows, n_cells / ncols) are rejected, and an accepted one is never cut |
| Altrep.GetQueryResultExactly | src/reltoaltrep.cpp:169-253 | there is a result if and only if no error is kept, and it is there already or the query, not yet completed and not disabled or busy, gives rows within the limits on rows and cells; it is then all of the query's rows, and otherwise nothing changes but that an error may be kept |
| Altrep.RowCountIsTheQuerys | src/reltoaltrep.cpp:143-148 | over every run the row count is the number of rows of a query that some step ran, and within the limits |
| Altrep.FailureIsFinal | src/reltoaltrep.cpp:169-172 | once the query has failed, no later step of any run changes anything |
| Altrep.ConvertsOnAccess | src/reltoaltrep.cpp:435-456 | in every consistent state, reading a column that is not being converted converts and counts it, if there is a result and its steps succeed, and changes no other column |
| Altrep.ReadingConvertsAll | src/reltoaltrep.cpp:435-456 | reading one column after the other converts them all with one query, whose row count stays known, and lets the result go at the end |
| AltrepWrappers.AltrepRelationWrapper.Materialize | src/reltoaltrep.cpp:255-296 | runs the query under the row limit, and either keeps the whole result and its row count or records an error |
| AltrepWrappers.AltrepRelationWrapper.GetQueryResult | src/reltoaltrep.cpp:169-253 | succeeds exactly if no error is kept and the result is there or the query would give one within the limits, and then keeps the query's row count; errors stick |
| AltrepWrappers.AltrepRelationWrapper.RowCount | src/reltoaltrep.cpp:143-148 | the row count outlives the result; where there is none yet, it is the query's own number of rows, exactly if the query succeeds within the limits |
| AltrepWrappers.AltrepRelationWrapper.MarkColumnAsTransformed | src/reltoaltrep.cpp:154-167 | the count goes up by one, and the result goes with the last column |
| AltrepWrappers.AltrepVectorWrapper.BeginDataptr | src/reltoaltrep.cpp:435-439 | a column with a vector is not converted again, and one without starts only with a result |
| AltrepWrappers.AltrepVectorWrapper.SetVector | src/reltoaltrep.cpp:439-445 | the vector stays set only if the result is there to fill it |
| AltrepWrappers.AltrepVectorWrapper.EndDataptr | src/reltoaltrep.cpp:448-454 | a filled column is converted and counted, a failed one drops its vector |
| AltrepWrappers.RelToAltrep | src/reltoaltrep.cpp:762-819 | the columns are different objects, one for every leaf column and in their order, each knowing the indexes that lead to it, and each is registered once |
| AltrepWrappers.LeavesAreDistinct | src/reltoaltrep.cpp:774-804 | no leaf column, however nested, is registered twice |

## Left out

Assumptions and simplifications:

- Filter pushdown: a conjunction without children has no translation here; the source asserts that there is none. Constants compare by a strict order on values, and the two IN forms (expression and legacy filter) share one definition.
- Partitioner and cost model: minutes are real numbers; rounding of floating point, argument parsing, dropping the oldest legs beyond the cap, and the JSON output are not modelled.
- CostMap: file system walk, include regular expression, hexadecimal masks and JSON are inputs or left out; paths are joined components.
- Aggregates: constant vectors stand for at least one row; sums are exact integers, min and max use any strict total order; the engine's removal of NULL rows under na.rm is the caller's part; dictionary vectors and casts are left out.
- DataFrameScan.Job.MaxThreads: divides exactly, where the source rounds a double division up, because rounding of doubles is not the point.
- MatrixColumns.RoundTrip: asks that a cell's conversion is lossless, which for logical matrices holds for TRUE, FALSE and NA only.
- ParquetWrite: the size of a buffer in bytes is a function of its rows, and flushing empties a buffer; which thread's row group comes first in the file is left to the run.
- LambdaExecution.Executor.Execute: says nothing of the entries that list_transform leaves unset for NULL rows; the marking of a result as constant, and the interrupt check, are left out.
- ParquetColumnReader: pages hold PLAIN values and definition levels, and a location is a number of pages; repetition levels, other encodings, page statistics and dictionary filters, encryption and prefetching are left out. Reads ask for rows that exist and at most a vector of them. A page without definition levels is one whose levels are all zero. The statistics that call a column all NULL tell the truth. A constant NULL vector is modelled as its flattened form.
- Lz4Hadoop: the raw LZ4 decoder is any function that stays in the room it is given.
- ArrowSource: the engine gives non-empty chunks until its end or its failure, shows a failure after a fixed number of chunks, and closes a stream only at its end or by Close(). Building the Arrow arrays and schemas is left out.
- ArrowQuery: a read is one step relative to another statement; every statement on the connection goes through the registry first; a streamed result has a client context. `rapi_execute_arrow`, which reads a whole result in one call, is left out. Releasing makes a result unreadable at once, whether it is destroyed or parked.
- ArrowRegistry: locked sections are steps, except that ending the results of a context takes one step per result while the lock is held. Which releases are parked is left open, so that a check of the callback depth may be out of date.
- ArrowOpenResults: destroying a parked result parks nothing in turn; `CallbackScope` has the general case.
- CallbackScope: what destroying an object parks is given from outside.
- ParquetLevels: names matter only for `value` and `typed_value`; TUPLE and UNION are written like STRUCT. Field identifiers, logical type annotations, encoding of levels and values, and the choice of a shredding are left out.
- Altrep: the materialize callback does not re-enter the same relation, a relation has columns, and a query's outcome is given from outside. Row names, decoration of columns and interrupt handling are left out.

Not modelled at all:

- The R API, protection from garbage collection, long jumps and exceptions as such: what matters of them is a step that fails, or code that may run in between.
- The engine's execution, storage, codecs and thrift transport behind the contracts named above.
- Parquet readers of nested columns, statistics, bloom filters, encryption and metadata caches.
- Connection and database wrappers, relation constructors, progress bars, signal handling and path handling.
- Generated code, loaders and formatting scripts.
