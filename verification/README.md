# rtail, verified

rtail's server is a small log database on one machine. Records are appended to a write-ahead log,
flushed to Parquet objects one stream at a time, registered in a catalog, compacted, aged out and
collected, while queries read history and tails follow what arrives. This project models the parts of
it whose correctness nobody can see by reading one function, and proves what they promise:

- **Log** (`Frames`, `Wal`): the write-ahead log byte by byte, with short writes, failed truncates, failed
  syncs and a crash at any point; what a replay returns and what a sync promises.
- **Catalog** (`Catalog`): every transaction, and the counters kept beside the rows.
- **Store** (`Store`, `StoreInvariant`, `StoreTheorems`): log, batch, objects, catalog, flusher, compactor,
  both garbage collectors, readers and the clock as one machine whose parts step in any order and which may
  crash between any two steps. `Durable` shows the code of the durable store to be runs of that machine.
- **Compaction** (`Compact`, `CompactTheorems`): which files merge, exactly what the output holds and is called,
  that a merge is steps of the store, and that passes come to rest.
- **Query language** (`Rql`, `Sql`, `Agreement`, `Resolver`): one query compiled to a live predicate and to
  three-valued SQL over stored rows, and the two agreeing; `Meaning`: what a comparison asks of a record, without the
  tables and orders both compilers share. `Syntax`, `RoundTrip`, `ParserShape`, `Parser`: the lexer, parser and
  printer, and that printing is undone by parsing; `Spellings`: the other ways to write the same query.
- **Tail** (`Memory`, `Backlog`, `Tail`): rings, their merge, what a restart reads back, and a live tail that sends
  nothing twice and skips nothing silently.
- **Edges** (`Ingest`, `Paging`, `Ordering`, `Schema`, `Rows`): line ingest that can be resumed, search page by page
  over a store that changes in between, and the columns a batch of records is written under and read back from.

Each module has functions that say what an operation does to values; where the program updates things in
place a class does so too, and its methods are proved to do what the functions say.
Where the log, the disk and the catalog may fail, `Durable.Server` leaves each answer open; its flag `healthy` says that
none of them does, and its methods then promise that their work is done.

## Hypotheses

The program does not give these; the theorems take them as preconditions or build them into the steps.

- Removing a log segment, renaming a committed object and committing a catalog transaction are atomic and
  durable. There is one process at a time, and its clock never goes back.
- A write registers what it declared within the orphan grace period (`Store.MayRegister`, `Store.MayPublish`).
  The collector judges a declaration by its age alone (`internal/catalog/catalog.go:891`).
- Reading a segment back during recovery finds the records that survived; segment numbers are not reused.
- A checksum accepts the payloads it was computed for, and rejects the payload of a record appended in the run when it is cut
  short and filled with zeros (`Wal.Trusted`).
- An fsync that succeeds makes everything written before it durable, also what an earlier fsync failed on.
- Where a record's line is kept, it says of a key what the record holds, as text that reads back as the same number or boolean,
  and says nothing of keys the record does not hold (`Resolver.LineAgrees`). It is not asked where a column holds the value.
- Case folding works letter by letter and makes no wildcard (`Sql.FoldOk`).
- A number shown by the printer is a plain word that reads back as the same number (`RoundTrip.Sane`).

## Where the code falls short of its promises

Each of these is a lemma with the exact condition.

- A segment cut inside its six-byte header and extended with zeros to six bytes or more is reported corrupt
  rather than empty (`Frames.ReplayOfCutSegment`). Every other cut replays its complete frames with no error.
- `Sync` after a `Close` whose own sync failed returns success although nothing became durable
  (`Wal.ImmediateSync`, `Wal.SyncAfterFailedClose`).
- `k=null` on a field no file can have is false in history and true on the tail (`Agreement.UnresolvedAgreesIff`);
  an empty phrase matches an empty record on the tail only (`Agreement.EmptyTextAgreesIff`); an empty `raw` exists on the
  tail only (`Agreement.RawExistsAgreesIff`).
- A query the tail refuses, for a bad pattern or a comparison with null, is answered no by history if no file has the field
  (`Agreement.HistoryRefuses`, `Resolver.BadPatternGoesUnseen`).
- A number or boolean of a key that has to be read out of raw, because no file keeps it in a column or its column's name is
  not its own, is text in history: `status="200"` finds it there and not on the tail (`Resolver.RawReadAgreesIff`).
- A key whose column name differs from another's only in case cannot be found once no file has raw, although it is stored
  (`Resolver.UnresolvedIff`, `Resolver.SharedKeyIsLost`).
- A quoted phrase that holds a line break, or any space but a blank or a tab, and nothing else that needs quotes, prints
  bare and comes back as several words (`ParserShape.RoundTripIff`, `ParserShape.LineBreakIsLost`).
- A cursor whose window begins or ends at the zero time does not carry it to the next page, and a cursor's times come back
  only if they fit 64 bits of microseconds (`Paging.CursorCarriesWindowIff`, `Paging.CursorComesBackIff`).
- A column name falls back to `a_field` only for the empty key; a comment says also for one whose every character was
  rejected, but each of those becomes an underscore (`Schema.BaseOf`).

## Model

| member | source | states |
|---|---|---|
| Frames.ReadEncoded | internal/wal/wal.go:599-681 | reading the frames of some records, followed by a tail, gives those records and then whatever the tail gives |
| Frames.FrameLayout | internal/wal/wal.go:228-248 | a frame byte by byte: the length and the checksum, each from its lowest byte up, and then the payload |
| Frames.ReplayOfCutSegment | internal/wal/wal.go:599-681 | a segment cut at any byte and extended with any number of zeros replays exactly its complete frames with no error, except that a header cut short and zero-filled to its length is corrupt |
| Frames.ReplayOfDamagedSegment | internal/wal/wal.go:627-681 | a payload altered in place, rejected by its checksum and followed by a byte that is not zero, gives exactly the records before it and then corruption |
| Frames.DamageBeforeTheLastIsReported | internal/wal/wal.go:627-681 | a payload altered in place in any frame but the last gives exactly the records before it and then corruption |
| Frames.ReplayInventsNothing | internal/wal/wal.go:599-681 | whatever the bytes, every record replayed is one whose frame stands in the segment, in order |
| Frames.CompleteCovers | internal/wal/wal.go:599-681 | a cut that keeps the bytes of the first n records keeps at least n complete frames |
| Frames.ZeroToEnd | internal/wal/wal.go:714-733 | finds whether every byte left is zero |
| Frames.Replay | internal/wal/wal.go:599-681 | the read loop gives the records and the ending of the segment as a function of its bytes |
| Wal.CrashTheorem | internal/wal/wal.go:215-449 | over any run of appends, syncs, rotations, cut writes, failed truncates and syncs and crashes: a segment on disk replays to a prefix of what it accepted, holding every record promised, and nothing a refused append wrote |
| Wal.SyncPromises | internal/wal/wal.go:324-393 | a sync that succeeds promises every record accepted before it began, however many appends ran during its fsync |
| Wal.CleanMeansPromised | internal/wal/wal.go:305-322 | a log with nothing dirty has promised everything it accepted |
| Wal.ImmediateSync | internal/wal/wal.go:324-345 | a sync that succeeds leaves everything accepted promised, if and only if the log is not closed with something unpromised |
| Wal.SyncAfterFailedClose | internal/wal/wal.go:324-345 | a concrete run in which a sync after a failed close succeeds and promises nothing |
| Wal.SurvivorsKept | internal/wal/wal.go:599-681 | what a crash leaves of a segment, zero-filled or not, replays to a prefix of the accepted records that includes every promised one |
| Wal.OldestIsLeast | internal/wal/wal.go:530-555 | the floor is at most the number of every record any sealed segment on disk could still produce |
| Wal.NoOldestNoRecords | internal/wal/wal.go:530-555 | no floor means no sealed segment holds a record |
| WalLog.SegmentLog.Append | internal/wal/wal.go:215-256 | buffers a frame and writes out when due; a refused append leaves file and memory as a cut-back write leaves them |
| WalLog.SegmentLog.WriteLocked | internal/wal/wal.go:271-302 | writes the buffer after cutting off a torn tail; what was not wholly written is cut off or remembered as torn |
| WalLog.SegmentLog.BeginSync | internal/wal/wal.go:324-345 | the first half of a sync, under the lock |
| WalLog.SegmentLog.EndSync | internal/wal/wal.go:346-357 | the second half: what was written when the fsync began is synced, appends since then are not |
| WalLog.SegmentLog.Rotate | internal/wal/wal.go:416-449 | syncs and seals the active segment and starts the next, or changes nothing but what it synced |
| WalLog.SegmentLog.Remove | internal/wal/wal.go:453-467 | deletes a sealed segment, never the active one |
| WalLog.SegmentLog.Floor | internal/wal/wal.go:530-555 | the first record of the oldest segment that replays to one |
| Catalog.CatalogConserves | internal/catalog/catalog.go:257-829 | over any sequence of transactions each stream's counters equal the sums over its live files, no path is both declared and registered, key occurrences are moved by first registrations only, and max_seq is the highest number ever registered |
| Catalog.ClampNeverFires | internal/catalog/catalog.go:489-549 | retiring a live file never meets the clamp at zero |
| Catalog.RetireFiles | internal/catalog/catalog.go:489-517 | retiring tombstones exactly the live files named and leaves every other row |
| Catalog.ApplyInv | internal/catalog/catalog.go:257-915 | every transaction keeps the counters, the ids, and pending and registered paths apart |
| Catalog.AddKeysCount | internal/catalog/catalog.go:370-430 | recording a file's columns adds its non-null values to each key, and nothing when a merge registers it |
| Catalog.InventoryIsTrue | internal/catalog/catalog.go:357-404 | over any sequence of transactions, a key whose columns were all of one kind is of that kind and any other is text, polymorphic exactly if a column was or they were not of one kind, and last seen at the latest of their files; and a stream was first and last seen at the earliest and the latest record of any file ever added |
| CatalogStore.Tables.InsertFile | internal/catalog/catalog.go:293-440 | inserts a file, or finds it already there; either way it is no longer pending |
| CatalogStore.Tables.Replace | internal/catalog/catalog.go:447-478 | publishes outputs and retires inputs in one transaction, or changes nothing |
| CatalogStore.Tables.RetireAll | internal/catalog/catalog.go:489-517 | the loop over the files to retire |
| CatalogStore.Tables.Tombstone | internal/catalog/catalog.go:737-755 | retires the files given, or does nothing for none |
| CatalogStore.Tables.Intend | internal/catalog/catalog.go:797-829 | declares every path that is not registered and reports those that are |
| CatalogStore.Tables.Discard | internal/catalog/catalog.go:876-915 | settles one declaration if it is old enough, and says whether its object goes |
| CatalogStore.Tables.Forget | internal/catalog/catalog.go:773-785 | drops a row |
| StoreTheorems.Conservation | internal/logstore/durable.go:242-338 | in every reachable state a record once promised is in exactly one place: one live file, once; dropped by retention; a segment waiting to be flushed under an unregistered path; or the synced part of the active segment |
| StoreTheorems.StoredForever | internal/logstore/durable.go:614-668 | no step and no crash takes a promise back |
| StoreTheorems.StoredAsSent | internal/logstore/durable.go:528-552 | in every reachable state each record promised, in a segment, in the batch or in a live file has the number, stream, time and severity of an append of the run that was accepted |
| StoreTheorems.AppendIsInPlay | internal/logstore/durable.go:528-552 | and every append accepted puts such a record at the end of the active segment |
| StoreTheorems.SyncAndSealPromise | internal/logstore/durable.go:1000 | a sync to the end of the active segment promises every record in it, and so does sealing it |
| StoreTheorems.OnlyRetentionDiscards | internal/compact/compact.go:429-614 | only merges and expiry discard, and only what the files they retire hold; `CompactTheorems.PublishIsSteps` and `CompactTheorems.DropIsStep` say exactly what a merge discards |
| StoreTheorems.BatchIsSegment | internal/logstore/durable.go:689-713 | whatever appends and rotations fail, the batch in memory is the active segment, and a flush holds what a replay of its segment gives |
| StoreTheorems.NothingRegisteredTwice | internal/logstore/durable.go:761-804 | however often a segment is replayed, what a flush registers is at a new path and holds no record any file holds |
| StoreTheorems.LiveObjectsSafe | internal/logstore/durable.go:874-964 | no step of any run deletes or overwrites the object of a live row |
| StoreTheorems.ReadersAreSafe | internal/logstore/durable.go:874-905 | a file on a list taken at some time reads the same until a grace period later |
| StoreTheorems.ForgottenForGood | internal/logstore/durable.go:850-905 | only rows retired a grace period ago are forgotten, and only when no segment on disk would be flushed to their path |
| StoreTheorems.NoMergeIsRefused | internal/compact/compact.go:530-560 | a merge never finds its name taken, although two streams may share a directory |
| StoreTheorems.NoRewriteIsRefused | internal/compact/compact.go:520-560 | nor does a rewrite |
| StoreTheorems.NoPublishIsRefused | internal/catalog/catalog.go:447-478 | nor is a publish ever refused |
| StoreTheorems.NumbersAreNew | internal/logstore/durable.go:204-259 | a record accepted now gets a number above every record in play, stored, discarded or in a file, crashes or not |
| StoreInvariant.RunInv | internal/logstore/durable.go:528-977 | every reachable state keeps the invariant: segments rising, live files disjoint, names tied to records, declarations young enough, the retry list complete |
| StoreInvariant.CrashKeeps | internal/logstore/durable.go:242-273 | a crash that loses any unpromised suffix of the active segment keeps it |
| StoreInvariant.ForgottenUnreachable | internal/logstore/durable.go:850-905 | the floor check implies that no segment left names the row forgotten |
| Durable.Server.Append | internal/logstore/durable.go:528-566 | the next number goes to the record; accepted, exactly that record, with the stream, time and severity given, is the last of segment and batch; refused, it is in neither and its number is spent |
| Durable.Server.Seal | internal/logstore/durable.go:689-713 | rotates and takes the batch as one step, or changes nothing |
| Durable.Server.Persist | internal/logstore/durable.go:761-804 | is a run of the machine's steps; when it succeeds every stream of the batch is registered |
| Durable.Server.Write | internal/logstore/durable.go:807-853 | writes and registers one stream's file, or leaves it for a retry |
| Durable.Server.Replay | internal/logstore/durable.go:292-338 | replays a segment: a run of steps that ends with the segment removed or kept |
| Durable.Server.RetryAll | internal/logstore/durable.go:724-746 | tries every segment on the retry list and keeps those that fail |
| Durable.Server.Flush | internal/logstore/durable.go:614-668 | is a run of steps; when it succeeds nothing is buffered, and what was buffered and every segment waiting for a retry has all its files registered; and it succeeds when the log, the objects and the catalog do what they are asked |
| Durable.Server.Open | internal/logstore/durable.go:204-259 | reopening is a crash step and a run of steps; numbering resumes from the highest number catalog and segments hold |
| Durable.Server.Floor | internal/wal/wal.go:530-555 | the floor over the sealed segments |
| Durable.Server.Collect | internal/logstore/durable.go:874-905 | is a run of listing, floor, removal and forgetting steps; when nothing fails, every object retired a grace period ago is gone, and every such row the floor lets go |
| Durable.Server.Sweep | internal/logstore/durable.go:946-977 | is a run of steps that each settle one declaration old enough; when nothing fails, none old enough is left |
| Durable.GroupedAppend | internal/logstore/durable.go:544-546 | appending a record to its stream's list is grouping the longer segment |
| Durable.RunOn | internal/logstore/durable.go:614-668 | code that does what some steps do leaves a reachable state reachable |
| CompactTheorems.MergeIsExact | internal/compact/compact.go:429-660 | the output holds a record as often as the inputs do if downsampling is off, or it is younger than the horizon, or it reaches the least level, and otherwise not at all; it is in order, described by its row, promises no floor it does not keep, and no other object changes |
| CompactTheorems.NameForgetsOrder | internal/compact/compact.go:505-530 | the rows stored, and so the first record and the name, depend only on which files go in |
| CompactTheorems.PublishIsSteps | internal/compact/compact.go:429-614 | a merge is the store machine's three steps: it begins, writes and publishes; and what it discards is exactly its inputs' records that downsampling drops |
| CompactTheorems.DropIsStep | internal/compact/compact.go:483-500 | a merge nothing of which is kept is the step that drops its inputs, and all it discards is what downsampling drops |
| CompactTheorems.BucketIsGroup | internal/compact/compact.go:360-390 | every group a pass merges is live files of one stream and level, each once |
| Compact.KeptExactly | internal/compact/compact.go:627-656 | retention keeps a record as often as it came if downsampling is off, or it is younger than the horizon, or it reaches the least level; and otherwise not at all |
| Compact.FloorIsTruthful | internal/compact/compact.go:627-656 | a level floor is promised only if every record kept reaches it |
| Compact.OutputIsNotDue | internal/compact/compact.go:331-352 | a rewrite clears the condition that triggered it |
| Compact.DueMeans | internal/compact/compact.go:331-352 | a file that is not due has nothing left to lose, its lines and the records below the least level gone once all of it is past their horizons; and one is due only past a horizon |
| Compact.SortedIsUnique | internal/parquetio/writer.go:340-383 | records with different numbers have one sorted order |
| Compact.OrderedIsSorted | internal/parquetio/writer.go:222-228 | ordering gives a sorted permutation |
| Compact.EarlierFirst | internal/parquetio/writer.go:340-383 | that order: where rows are clustered, by the column, rows without a value last; and else the earlier first, and at one time the lower number |
| Compact.BucketsPartition | internal/compact/compact.go:360-390 | every file is in exactly one bucket, its own stream's and period's |
| Compact.TogetherIff | internal/compact/compact.go:360-390 | files share a bucket exactly if they are of one stream and their oldest records fall in one hour, or one day at level one |
| Compact.EligibleIff | internal/compact/compact.go:398-424 | a group is worth a merge exactly if all its files are old enough, or at level zero there are enough of them |
| Compact.ChosenFills | internal/compact/compact.go:440-478 | a merge takes files in turn: never more than it may, none once their rows are more than it should read, and none left out before that |
| Compact.MergeShrinks | internal/compact/compact.go:179-208 | a merge makes (live level 0, live level 1, due level 2, live) lexicographically smaller |
| Compaction.Compactor.ReadInputs | internal/compact/compact.go:445-478 | reads files until there are rows enough, and fails only if one of those cannot be read |
| Compaction.Compactor.ApplyRetention | internal/compact/compact.go:627-656 | the loop keeps a record as often as it came under the same condition, in order, and knows whether all of it was old |
| Compaction.Compactor.KeepRaw | internal/compact/compact.go:659-679 | raw goes only when every record is past the horizon |
| Compaction.Compactor.Bucketize | internal/compact/compact.go:360-390 | the grouping loop gives each key's files in order, keys by first appearance |
| Compaction.Compactor.MergeGroup | internal/compact/compact.go:429-614 | does the merge, or changes nothing |
| Compaction.Compactor.MergeLevel | internal/compact/compact.go:263-285 | a level's files in some order, grouped: every group worth it is merged, one after the other, and one that fails changes nothing; either something merged and the measure is smaller, or every group worth merging is one that cannot be |
| Compaction.Compactor.RewriteLevel | internal/compact/compact.go:296-320 | every file of the last level that is due is rewritten, one after the other, likewise |
| Compaction.Compactor.Expire | internal/compact/compact.go:218-252 | retires exactly the files whose newest record is past the horizon |
| Compaction.Compactor.RunOnce | internal/compact/compact.go:179-208 | a pass makes the measure smaller, or changes nothing and leaves nothing to do: no file has aged out, and every group worth merging and every file that is due is one whose merge fails or has nothing to read |
| Compaction.Compactor.RunUntilIdle | internal/compact/compact.go:749-786 | with the clock stopped, passes come to such a state of rest |
| Resolver.HistoryAnswersAsTheTail | internal/rql/sql.go:126-341 | over any files in any order, the clause compiled for them is true of a stored row exactly when the live predicate accepts its record, each key standing in a column of the record's own file or only in its line |
| Agreement.Agrees | internal/rql/sql.go:142-316 | the compiled clause evaluates to a truth value that is true exactly when the predicate accepts, whenever each field reads what the record holds |
| Meaning.LevelsCompare | internal/rql/sql.go:64-88 | on the levels written out from least to most severe, EMERGENCY and FATAL one place: a record of one accepts `=` another exactly if it is the same, and `>=`, `>`, `<=` and `<` exactly as their places compare |
| Meaning.UnknownCompares | internal/rql/sql.go:55-88 | a level that is not on the list stands between INFO and NOTICE, whichever side it is on |
| Meaning.NoLevelCompares | internal/rql/predicate.go:154-172 | a record without a level answers to no level, but to null |
| Meaning.LevelAsked | internal/rql/sql.go:98-107 | a bare number on the scale 10 TRACE, 20 DEBUG, 30 INFO, 40 WARN, 50 ERROR, 60 FATAL asks for that level, and any other literal for the level its text names |
| Meaning.PinoCompares | internal/rql/sql.go:98-107 | so `level>=40` finds exactly the levels from WARN up, and likewise for the rest of the scale |
| Meaning.NumbersCompare | internal/rql/predicate.go:367-405 | numbers compare as numbers, between the infinities, and NaN above them all and equal to itself |
| Meaning.TextCompares | internal/rql/predicate.go:407-421 | text compares with a word letter by letter |
| Meaning.KindsCompare | internal/rql/predicate.go:316-345 | a number answers no word, and a boolean only a boolean, false before true |
| Meaning.TimesCompare | internal/rql/predicate.go:174-184 | event time and ingest time each compare with the instant asked for |
| Meaning.ContainsMeans | internal/rql/predicate.go:147-153 | a field is found by a text that begins anywhere in it, case aside |
| Meaning.OperatorsRead | internal/rql/parse.go:413-471 | as text, a field, one of the seven operators written out and a value without quotes are that comparison, and a minus before them its negation |
| Meaning.NumberQueries | internal/rql/parse.go:486-501 | so `field>=5` as written accepts exactly the records whose field is a number of at least five, and the other orders likewise |
| Meaning.WordQueries | internal/rql/parse.go:486-494 | `field=true`, `field=false` and `field=null` as written ask for just that |
| Meaning.LevelQueries | internal/rql/sql.go:64-107 | `level>=X` as written accepts exactly the levels from X on |
| Agreement.RefusalsAgree | internal/rql/predicate.go:116-193 | history refuses nothing the tail accepts, and where every field resolves the two refuse the same queries for the same first reason |
| Agreement.HistoryRefuses | internal/rql/sql.go:163-259 | history refuses exactly the first thing the tail would refuse among comparisons whose field resolves |
| Resolver.HistoryRefusesOver | internal/rql/sql.go:204-214 | which holds over any set of files |
| Resolver.BadPatternGoesUnseen | internal/rql/sql.go:204-214 | a bad pattern over a field no file has is refused by the tail and answered no by history |
| Agreement.PlaceholdersInOrder | internal/rql/sql.go:137-192 | written out left to right, the placeholders are the bound arguments in order |
| Agreement.FloatsAgree | internal/rql/predicate.go:385-396 | Go's comparisons with the NaN cases order doubles as DuckDB does |
| Agreement.UnresolvedAgreesIff | internal/rql/sql.go:204-214 | on a field nothing can have, the two agree unless the query asks for null |
| Agreement.EmptyTextAgreesIff | internal/rql/sql.go:195-202 | full text agrees unless phrase, message and line are all empty |
| Agreement.RawExistsAgreesIff | internal/parquetio/writer.go:432-436 | raw=* agrees exactly when raw is not empty |
| Agreement.IngestedLevelIsTrimmed | internal/normalize/normalize.go:398-421 | a level as ingest stores it has no space around it, so the inline CASE ranks it as the tail does |
| Agreement.AsTextAgreesIff | internal/rql/sql.go:262-316 | a value read as text answers as the record does exactly when the literal is a bare number, or the operator asks for text or presence, or a text would get the same answer |
| Agreement.SpelledAsShown | internal/rql/predicate.go:316-335 | a boolean literal spelled as it is shown gets the same answer from text |
| Sql.ILikeIsWithin | internal/rql/sql.go:195-202 | the escaped pattern finds exactly the rows that contain the text, case aside |
| SqlCompiler.Compiler.CompileNode | internal/rql/sql.go:142-170 | the compiler that appends to its arguments produces the expression and arguments of the compiling function |
| Resolver.NewResolver | internal/query/resolve.go:86-159 | the loops fill the facts, owners and shared keys of the files' columns |
| Resolver.FactsSay | internal/query/resolve.go:103-125 | a key's column is its one name or none, its kind its one kind or text |
| Resolver.SharedSay | internal/query/resolve.go:97-157 | the shared keys are exactly those that meet another key at a name, case aside |
| Resolver.ReadsItsOwn | internal/query/resolve.go:139-157 | a key that resolves to a column reads its own column in a file that keeps it, and nothing in one that does not |
| Resolver.FileOrderIsNothing | internal/query/resolve.go:86-210 | the resolution of any field is the same for every order of the files |
| Resolver.KeyReads | internal/query/resolve.go:164-210 | an undotted key, kept in a column, or in a column of other files and only in the line of its own, reads what the record holds; one with no name of its own reads it as text |
| Resolver.KeyEvaluates | internal/query/resolve.go:164-210 | what an undotted key evaluates to over any files: its own file's cell, failing that, unless every file keeps the key, the line's text cast to the column's kind, and the line's text alone where the key has no column name of its own |
| Resolver.KeyReadsNoOther | internal/query/resolve.go:139-210 | an undotted key reads null, its own stored value, or what the line says of that key |
| Resolver.UnresolvedIff | internal/query/resolve.go:181-199 | a key folds to FALSE exactly when no file has raw and no column is known to be it: none keeps it, its name differs between files, or another key meets it there |
| Resolver.RawReadAgreesIff | internal/query/resolve.go:189-199 | for a number or boolean of a key read out of raw, history and tail agree exactly where text answers alike |
| Resolver.SharedKeyIsLost | internal/query/resolve.go:139-157 | two keys whose column names differ in case, in files without raw: the tail finds the record, and history answers no |
| ParserShape.RoundTripIff | internal/rql/ast.go:181-240 | for every query the parser returns, printing and parsing gives it back in canonical form exactly when each phrase printed bare holds no space |
| ParserShape.ParsedShape | internal/rql/parse.go:200-478 | every tree the parser returns has fields, literals and arities the printer can rely on |
| ParserShape.LineBreakIsLost | internal/rql/ast.go:162-167 | a quoted phrase with a line break comes back as two words |
| RoundTrip.PrintedParsesBack | internal/rql/ast.go:181-240 | a printed tree of that shape parses to its canonical form |
| RoundTrip.CanonMeansTheSame | internal/rql/ast.go:129-240 | the canonical form of a query whose literals other than null are spelled as shown accepts the same records |
| RoundTrip.LexShow | internal/rql/parse.go:75-130 | the tokens of a printed query, whatever follows it |
| RoundTrip.OrParses | internal/rql/parse.go:248-360 | those tokens parse to the canonical tree, leaving what follows |
| RoundTrip.LexEscaped | internal/rql/parse.go:146-172 | unescaping undoes escaping |
| Spellings.AndIsOptional | internal/rql/parse.go:277-312 | in any query, AND after a whole term and before the beginning of another may be left out: the same tree, or the same error |
| Spellings.NotMayBeMinus | internal/rql/parse.go:314-369 | anywhere in a query, NOT before a word, a phrase or a group is a minus pressed against it |
| Spellings.QuotesAlike | internal/rql/parse.go:95-172 | wherever an apostrophe begins a quoted string, any text in apostrophes is the same text in quotation marks |
| Spellings.NilMayBeNull | internal/rql/parse.go:486-494 | anywhere in a query, a field compared with nil is compared with null: refused alike, or accepting the same records |
| Parser.LexAll | internal/rql/parse.go:75-130 | the indexed loop produces the tokens of the lexing function |
| Parser.LexQuotedAt | internal/rql/parse.go:146-172 | the loop over a quoted string finds its text and its end |
| Parser.SplitOperator | internal/rql/parse.go:449-470 | the search over the operators finds the leftmost one, the longer of two |
| Parser.Reader.ReadOr | internal/rql/parse.go:248-275 | reads off the tokens what the grammar takes; `Spellings` and `RoundTrip` say what that is |
| Parser.Reader.ReadUnary | internal/rql/parse.go:314-369 | including a token rewritten in place after its minus |
| Parser.ParseQuery | internal/rql/parse.go:200-222 | parses a query as the grammar does, error or tree |
| Memory.Ring.Push | internal/logstore/memory.go:164-173 | the record is added, and the oldest makes room for it if the ring is full |
| Memory.Ring.Slice | internal/logstore/memory.go:176-188 | gives the newest, oldest first |
| Memory.Memory.Append | internal/logstore/memory.go:59-89 | numbers a record and keeps it among its stream's last |
| Memory.Memory.Backlog | internal/logstore/memory.go:105-133 | one stream's last records, or every ring merged by number |
| Memory.Merges | internal/logstore/memory.go:120-123 | sorting the rings' records by number gives them in the order they came |
| Memory.MergedBacklogIsLast | internal/logstore/memory.go:105-133 | the merged backlog is the last N records of the whole history, for every N a ring has room for |
| Backlog.ReadWith | internal/parquetio/reader.go:124-165 | trimming early while reading keeps the records with the highest numbers |
| Backlog.NewestAreHighest | internal/parquetio/reader.go:124-165 | the newest are as many as asked for, or all, in order, and none left out has a higher number |
| Backlog.NewestOf | internal/logstore/durable.go:388-430 | the walk that stops early returns exactly the newest records over all of a stream's files |
| Backlog.TrimEarly | internal/parquetio/reader.go:124-165 | keeping the newest before reading on changes nothing |
| LiveTail.SentInOrder | internal/api/sse.go:67-203 | backlog and lines together, numbers sent strictly increase and all match |
| LiveTail.NoSilentGap | internal/api/sse.go:67-203 | every record wanted, from the first of the backlog on, is sent, queued, not yet published, or dropped and counted exactly |
| LiveTail.RunInv | internal/api/sse.go:67-203 | every interleaving of pushes, publishes, subscription, backlog and receives keeps the tail's invariant |
| TailSession.Fanout.Publish | internal/logstore/logstore.go:174-193 | a line goes to every subscription to its stream or to all streams, and a stream list to every one, queued if there is room and counted if not; no other changes |
| TailSession.Session.SendBacklog | internal/api/sse.go:120-150 | the floor is the highest number in the backlog wherever it stands |
| TailSession.Session.Receive | internal/api/sse.go:170-200 | sends a line above the floor that matches, and nothing else |
| Ingest.Receiver.Lines | internal/ingest/http.go:165-267 | what is stored is exactly the lines that are not blank among the first so many, each cut to the limit; the answer says how many unless the sync fails, and a body that fails or a line refused is never reported as whole |
| Ingest.StoredOne | internal/ingest/http.go:223-267 | among any others, a line is stored in its place unless it is blank, the first 1048576 bytes of it |
| Ingest.LinesComeBack | internal/ingest/http.go:277-306 | lines written out, each with its newline, and perhaps one more without, are the lines of the body |
| Ingest.Body.ReadLine | internal/ingest/http.go:277-306 | reads exactly one line however the body is chunked, cut to the limit, and leaves the body at the next |
| Ingest.ResumingStoresOnce | internal/ingest/http.go:195-267 | wherever the first attempt stopped, sending the body again from the line accepted up to stores every line that is not blank exactly once, in order |
| Ingest.CutBodyHasFirstLines | internal/ingest/http.go:223-246 | a body that stops arriving anywhere has the first lines of the whole body and no fragment |
| Ingest.SkipLines | internal/ingest/http.go:255-261 | lines counted as accepted are lines of the body to skip |
| Paging.PagesShowEverything | internal/query/search.go:239-352 | a walk to the last page shows every record that was there for all of it, exactly once, however the store changed in between, even if the record lost its line, and whatever windows later requests asked for |
| Paging.PagesInOrder | internal/query/search.go:239-352 | all pages together go from later to earlier, or from earlier to later if asked, numbers deciding at one time; they show no row twice and none that the search does not match in its first window |
| Paging.StillWalkEnds | internal/query/search.go:239-352 | over a store that stands still a walk has at most one page more than there are rows |
| Paging.StillWalkShows | internal/query/search.go:239-352 | over a store that stands still a walk to the end shows exactly the rows sought |
| Paging.Engine.Search | internal/query/search.go:239-352 | a page is the first so many of the rows wanted past the cursor, over all files and not just those left by pruning, with a cursor exactly when there are more; its window is the cursor's if that carries one and else the one asked for, an end not given now and a beginning not given a day before the end |
| Paging.Engine.Plan | internal/query/engine.go:221-252 | an end given is used and one not given is now; a beginning given is used and one not given is a day before the end; files outside are left out |
| Paging.LastDayIsSearched | internal/query/engine.go:221-228 | every row that matches and is of the last day is on the first page of a search without a window, or comes after all of it |
| Paging.OnlyLastDayIsShown | internal/query/engine.go:221-228 | and no other is on it |
| Paging.PruneIs | internal/catalog/catalog.go:561-611 | pruning leaves out no row of the window and stream asked for |
| Paging.CursorRoundTrip | internal/query/search.go:78-121 | reading a cursor back gives it with each time wrapped to 64 bits of microseconds |
| Paging.CursorComesBackIff | internal/query/search.go:78-121 | a cursor comes back as it was exactly when its times fit |
| Paging.CursorCarriesWindowIff | internal/query/search.go:243-246 | later pages keep the window of the first, whatever they ask for, exactly when neither end is the zero time |
| Schema.SchemaIsOrderFree | internal/parquetio/schema.go:154-239 | the records of a batch in any order give the same columns and the same number of keys left out |
| Schema.BuildSchema | internal/parquetio/schema.go:154-239 | builds the schema, whatever order its maps are walked in |
| Schema.ColumnsAreApart | internal/parquetio/schema.go:288-324 | no two columns have one name under case folding or hold one key, and none is named like the envelope |
| Schema.ColumnName | internal/parquetio/schema.go:288-324 | ends with the first of its names that is free |
| Schema.LeftOutIsRarer | internal/parquetio/schema.go:179-198 | a key is left out only for want of room, and every one of the 512 kept is held by more of the records, or by as many and is earlier by name |
| Schema.ValuesFit | internal/parquetio/writer.go:450-484 | every value of a key kept has a place in its column, unwidened unless the key is polymorphic or an integer among floats |
| Schema.WidestFits | internal/parquetio/schema.go:112-145 | a value of any kind seen fits the width chosen for the key |
| Schema.WidestSays | internal/parquetio/schema.go:112-145 | a key with values of one kind gets a column of it, one with whole numbers and others a column of floats, one of any other mixture a column of text, marked, and one with no value none |
| Schema.PlainName | internal/parquetio/schema.go:288-324 | if the name is free a column is called a_ and the key, each character that is no letter, digit or underscore turned into an underscore |
| Schema.TallyIsOrderFree | internal/parquetio/schema.go:90-103 | what is gathered about a key does not depend on the order of records |
| Rows.Write | internal/parquetio/writer.go:85-210 | writes each record as its row, and a null count that is exactly the number of records without a value for the key |
| Rows.FieldsComeBack | internal/parquetio/reader.go:202-292 | a record is read back with exactly the keys kept, each value as it was but for integers among floats and mixed keys |
| Rows.EnvelopeComesBack | internal/parquetio/writer.go:386-438 | the envelope is read back as it was, but that a record whose line is not kept or is no document is no object |
| Rows.SecondTimeIsSame | internal/parquetio/reader.go:202-292 | writing what was read back under its own schema and reading it again changes no record and leaves no key out |
| Rows.FilesSuitResolving | internal/parquetio/schema.go:288-324 | files written under their own schemas name their columns, and keep each key once, as resolving a field needs |
| Rows.FilesKeepKeys | internal/parquetio/writer.go:450-484 | and keep each value of a key of one kind in a column fit for it |

## Left out

- DuckDB, SQLite, parquet-go and the regular expression engine: tables are maps, files are rows, and matching, casts and text of numbers are functions both compilers share.
- JSON encoding of log payloads and checksum arithmetic: an encoding and a checksum are parameters.
- Objects in `Store` are multisets: their row order is in `Compact`.
- Quarantine of a damaged segment: `Store` flushes segments whose records all survive.
- An empty segment left by a crash: it holds nothing to flush.
- The lock order inside one process: the store's steps are the critical sections, and their interleavings are all runs.
- Clock steps inside one call of the durable code: `Durable` methods run with the clock still; `Store` lets it tick between any two steps.
- Durable.Server.Persist: the streams of a batch are written in any order, not sorted by name, which only decides which failure is reported first.
- Compaction.Compactor.Prune: the order files are listed in is left open, so passes are proved for every order.
- Compaction.Compactor.MergeGroup: a write or transaction that fails is not modelled there; the steps of `Store` may abandon a merge anywhere.
- The values of a clustering column are given as ranks in its physical order, or none.
- How level names are normalised, timestamps and case conversions are parameters, as are number and timestamp formats.
- Dotted fields: `Resolver.Resolve` compiles them, and `Agreement.Agrees` covers them where they read what the record holds, but `Resolver.KeyReads` is about undotted keys.
- Resolver.HistoryAnswersAsTheTail: text operators on number columns other than `seq` are excluded, because a widened integer shows differently; so are keys stored with two kinds in columns, and keys whose file has neither a column for them nor their line, whose values are gone (`Resolver.KeyEvaluates` says what such a key reads).
- Positions in parse errors.
- Memory.Memory.Append: rings are held as the records in them, so sharing of a ring between streams is not modelled; `Memory.Ring` is the circular buffer itself.
- Keeping a registry of subscriptions as objects: `TailSession.Fanout` holds them as values.
- HTTP, authentication, configuration, syslog, OTLP, the client and the web pages.
- The SQL escape hatch, histograms and the field explorer.
- Paging.Engine.Search: the window and rows are compared in whole microseconds, as the columns hold them; the database engine's ordering and limit are functions; reading back fields that `raw` cannot supply is not part of it.
- Paging.PagesShowEverything: walks over a window that begins or ends at the zero time (year one) are excluded, because their cursor does not carry it (`Paging.CursorCarriesWindowIff`).
- Ingest.Receiver.Lines: decompression, size and time limits only decide where a body fails; what counts as white space is a parameter.
- Rows.Write: row order (see `Compact`), minima and maxima, and writes that fail part way.
- Rows.ReadRow: columns the catalog does not list, whose key and kind would be guessed.
