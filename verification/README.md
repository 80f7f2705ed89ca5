# A verified model of InfluxDB IOx's packed columns, partition keys, caches and compactor

This project models the parts of InfluxDB IOx that carry the most state and branching, and proves what they promise
over every input, every operation sequence and every interleaving. `dafny verify dfyconfig.toml` checks all of it.

- **Packed columns** (`Bits`, `BitSet`, `BitSetRuns`, `SetPositions`, `PackedStrings`, `StringDictionary`,
  `OptimizeDict`). The bit set packs booleans into bytes at any skew, the string array is one buffer with offsets, the
  dictionary is a hash index over it. Each is a class with the source's own fields and is proved to be the sequence of
  booleans or strings it stands for. Representations are canonical: the same contents always give the same bytes.
  Optimizing a dictionary column leaves every decoded row as it was.
- **Addressable heap** (`AddressableHeap`, `SimpleHeap`). A map and an ordered queue kept in step, proved to answer
  every operation sequence like a plain list of items.
- **Partition keys** (`PartitionKey`, `PartitionTime`, `RowKeys`, `PartitionBatch`, `BatchKinds`). Encoding, truncation
  and joining of key parts against the decoder; the calendar range read back from a time part; and the fast key
  generation for a whole batch, with cached timestamps, skipped rows and merged ranges, against rendering every row on
  its own.
- **Summaries** (`Summaries`, `TableSummaries`). Merging statistics is summarising the concatenated rows.
- **Protocols** (`Backoff`, `CancellationSafe`, `Executor`). Retry with a deadline, the drop race of a
  cancellation-safe future, and the executor's shutdown handshake, the last two over all interleavings.
- **Compactor** (`ParquetFiles`, `TimeSplit`, `Plans`, `Catalog`, `FilesSplit`, `Classifier`, `ManyFiles`,
  `LimitFiles`, `RoundCommits`, `CatalogStore`, `Driver`, `Branches`, `Rounds`, `Conservation`). From picking files over
  planning, running and committing to the catalog invariant. The invariant is kept by a commit exactly when a guard on the
  surviving files holds. The way files are picked discharges all of that guard except for the files that lie in gaps
  which the compacted range bridges, and a whole round is a run of such commits. Over all rounds, chunks and
  interleavings of branches no file is lost or held twice, and rows and bytes are conserved.

Where the code does not do what one would expect, the model follows the code and proves exactly when it happens:

- `is_all_set` leaves out one byte of a partial bit set (`BitSets.IsAllSetExactIff`, `BitSets.IsAllSetMisses`).
- A null behind a value in a column that should be a tag but is not one may be given the error of the row before it
  (`BatchKinds.WrongBatch`). A batch is right exactly when no row falls back like that (`PartitionBatch.RightIff`), and
  all batches of given kinds of columns are right exactly when none of them can (`BatchKinds.KindsRightIff`).
- A wait of more than a million seconds ends retrying as if the deadline had passed, and with a panic if there is none
  (`Backoffs.TooLongAtOnce`, `Backoffs.NeverTooLongIff`).
- Documentation calls merging columns of different types a no-op; the code panics (`TableSummaries.KindsClash`, and the
  exact condition in `TableSummaries.TableSummary.UpdateFrom`).
- Even splitting in the simulator compares the first split time with zero, not with the start of the data
  (`TimeSplit.EarlySplitTime`, `TimeSplit.SplitTiles`).
- Grouping many small files panics when it is left with a lone small file at the end (`ManyFiles.LoneFiles`,
  `ManyFiles.LoneFileIff`). It keeps counting the bytes of lone files it has given up.
- Compacting across a gap can put older data below newer (`Classifier.GapBridged`, `RoundCommits.RoundOkIff`), also when
  only a part of the files is picked (`RoundCommits.PickedAround`, `RoundCommits.LimitedOkIff`).
- A branch without plans never commits its upgrade (`Rounds.ReturnsAllIff`).

Smaller ones are followed without further notice: `set` at the length of a bit set dirties the padding, `truncate` past
the buffer does not grow it, the comment on splitting partition keys names another delimiter than the code, and a plan
run without any permits counts as a success with no output.

## Model

| member | source | states |
|---|---|---|
| `Bits.PacksIsPack` | arrow_util/src/bitset.rs:268-281 | whole bytes with zero padding that hold given booleans are the bytes got by packing them one by one, and no others are |
| `BitSets.BitSet.constructor` | arrow_util/src/bitset.rs:21-23 | a new bit set is the empty sequence |
| `BitSets.BitSet.AppendBits` | arrow_util/src/bitset.rs:111-155 | from any length and any garbage above the count, exactly the first count bits are appended and the padding stays zero |
| `BitSets.BitSet.AppendUnset` | arrow_util/src/bitset.rs:39-43 | appends that many unset bits |
| `BitSets.BitSet.AppendSet` | arrow_util/src/bitset.rs:46-63 | appends that many set bits and keeps the padding zero |
| `BitSets.BitSet.Truncate` | arrow_util/src/bitset.rs:66-74 | keeps the prefix with zero padding; the result is a proper bit set exactly when the new length fits the old buffer |
| `BitSets.BitSet.ExtendFrom` | arrow_util/src/bitset.rs:77-79 | appends all bits of another bit set |
| `BitSets.BitSet.ExtendFromRange` | arrow_util/src/bitset.rs:82-108 | for every alignment of both sides appends exactly the bits of the range; both partial appends meet the length demand of appending bits |
| `BitSets.RangeOfBits` | arrow_util/src/bitset.rs:82-108 | a range of the bits is the range of all the bits of the bytes |
| `BitSets.BitSet.Set` | arrow_util/src/bitset.rs:158-164 | sets one bit and no other; stays proper exactly when the index is below the length, though the code also lets the length through |
| `BitSets.BitSet.Get` | arrow_util/src/bitset.rs:167-173 | reads the bit; at the length, the padding |
| `BitSets.BitSet.IsAllSet` | arrow_util/src/bitset.rs:202-224 | true exactly when every bit that the code looks at is set |
| `BitSets.IsAllSetExactIff` | arrow_util/src/bitset.rs:202-224 | looking at those bits decides whether all bits are set exactly for lengths below eight and multiples of eight |
| `BitSets.IsAllSetComplete` | arrow_util/src/bitset.rs:202-224 | never says no to a fully set bit set |
| `BitSets.IsAllSetMisses` | arrow_util/src/bitset.rs:208-221 | a bit set with an unset bit that it takes for fully set |
| `BitSets.BitSet.IsAllUnset` | arrow_util/src/bitset.rs:227-229 | true exactly when no bit is set |
| `BitSetRuns.Step` | arrow_util/src/bitset.rs:39-155 | one operation does to the bit set what it does to a sequence of booleans |
| `BitSetRuns.Run` | arrow_util/src/bitset.rs:405-481 | after any sequence of operations the bytes are the result of packing the final booleans at once |
| `SetPositions.PositionsExact` | arrow_util/src/bitset.rs:239-258 | the positions are ascending and are exactly the set ones at or above the offset |
| `SetPositions.SetPositionIter.constructor` | arrow_util/src/bitset.rs:239-248 | starts with all set positions at or above the offset still to come |
| `SetPositions.SetPositionIter.Next` | arrow_util/src/bitset.rs:249-258 | yields the next position, or ends when there is none, byte by byte |
| `SetPositions.Collect` | arrow_util/src/bitset.rs:239-258 | iterating to the end yields all of them and terminates |
| `PackedStrings.PackedCanonical` | arrow_util/src/string.rs:12-19 | every offset is the total length of the strings before it and the storage is their concatenation |
| `PackedStrings.PackedUnique` | arrow_util/src/string.rs:12-19 | equal strings have equal offsets and storage |
| `PackedStrings.PackedStringArray.constructor` | arrow_util/src/string.rs:22-33 | starts with no strings |
| `PackedStrings.PackedStringArray.Empty` | arrow_util/src/string.rs:35-40 | starts with that many empty strings |
| `PackedStrings.PackedStringArray.Append` | arrow_util/src/string.rs:55-65 | appends the string and returns its index |
| `PackedStrings.PackedStringArray.ExtendFrom` | arrow_util/src/string.rs:68-80 | appends all strings of another array |
| `PackedStrings.PackedStringArray.ExtendFromRange` | arrow_util/src/string.rs:83-100 | appends the strings of the range, offsets moved |
| `PackedStrings.AppendedRange` | arrow_util/src/string.rs:83-100 | offsets moved behind the old ones stand for the old strings followed by those of the range |
| `PackedStrings.PackedStringArray.Get` | arrow_util/src/string.rs:103-108 | the string at the index, or none past the end |
| `PackedStrings.PackedStringArray.Extend` | arrow_util/src/string.rs:111-114 | pads with empty strings |
| `PackedStrings.PackedStringArray.Truncate` | arrow_util/src/string.rs:117-121 | keeps the first strings |
| `PackedStrings.PackedStringArray.Clear` | arrow_util/src/string.rs:124-127 | drops all strings |
| `PackedStrings.PackedStringIterator.Next` | arrow_util/src/string.rs:188-192 | yields the strings in order |
| `PackedStrings.Collect` | arrow_util/src/string.rs:129-134 | iterating yields exactly the strings |
| `StringDictionaries.StringDictionary.constructor` | arrow_util/src/dictionary.rs:48-50 | starts empty, for any hash function |
| `StringDictionaries.StringDictionary.LookupValueOrInsert` | arrow_util/src/dictionary.rs:62-88 | returns the id of a known string, or appends it with the next id |
| `StringDictionaries.StringDictionary.LookupValue` | arrow_util/src/dictionary.rs:91-97 | finds the id exactly of the strings held, whatever collides |
| `StringDictionaries.StringDictionary.LookupId` | arrow_util/src/dictionary.rs:100-102 | the string of an id, the inverse of looking a value up |
| `StringDictionaries.StringDictionary.Truncate` | arrow_util/src/dictionary.rs:117-121 | keeps the strings up to the id and forgets exactly the others |
| `StringDictionaries.StringDictionary.Clear` | arrow_util/src/dictionary.rs:124-127 | forgets everything |
| `StringDictionaries.TryFrom` | arrow_util/src/dictionary.rs:173-208 | succeeds exactly when the strings are distinct, with their positions as ids, and otherwise names a duplicate |
| `StringDictionaries.FirstSeenDistinct` | arrow_util/src/dictionary.rs:62-88 | the strings in order of first occurrence are distinct and are the strings given |
| `StringDictionaries.Step` | arrow_util/src/dictionary.rs:62-127 | one operation does to the dictionary what it does to a sequence of distinct strings |
| `StringDictionaries.Run` | arrow_util/src/dictionary.rs:62-127 | after any mix of inserts, truncates and clears the index is exact, for any hash function |
| `StringDictionaries.InsertsFirstSeen` | arrow_util/src/dictionary.rs:62-88 | inserting strings gives ids densely in the order of first occurrence |
| `OptimizeDict.OptimizeDictCol` | arrow_util/src/optimize.rs:33-89 | succeeds exactly for 32-bit keys and strings; every decoded row stays as it was, every value is distinct and used, and the values are those at their first uses in the order they had, so a sorted dictionary stays sorted |
| `OptimizeDict.UsedKeys` | arrow_util/src/optimize.rs:65-72 | collects exactly the keys of rows that are not null |
| `OptimizeDict.Renumber` | arrow_util/src/optimize.rs:74-80 | the used values get dense new keys in their old order |
| `OptimizeDict.NewKeys` | arrow_util/src/optimize.rs:82-88 | every key is translated and nulls stay nulls |
| `OptimizeDict.Preserved` | arrow_util/src/optimize.rs:33-89 | translated keys over the picked values decode to the same rows |
| `AddressableHeaps.AddressableHeap.constructor` | cache_system/src/addressable_heap.rs:40-45 | starts empty and in step |
| `AddressableHeaps.AddressableHeap.IsEmpty` | cache_system/src/addressable_heap.rs:48-53 | true exactly when there is no item; map and queue cannot disagree |
| `AddressableHeaps.AddressableHeap.Insert` | cache_system/src/addressable_heap.rs:58-83 | stores the item, returns the one replaced, and none of its assertions fails |
| `AddressableHeaps.AddressableHeap.Peek` | cache_system/src/addressable_heap.rs:86-88 | the first item of the order |
| `AddressableHeaps.AddressableHeap.Pop` | cache_system/src/addressable_heap.rs:91-102 | removes and returns the first item |
| `AddressableHeaps.AddressableHeap.Iter` | cache_system/src/addressable_heap.rs:190-199 | yields all items in order |
| `AddressableHeaps.AddressableHeap.Get` | cache_system/src/addressable_heap.rs:115-117 | finds value and order of exactly the item of that key, and nothing exactly when no item has it |
| `AddressableHeaps.AddressableHeap.Remove` | cache_system/src/addressable_heap.rs:122-132 | removes the item from both structures |
| `AddressableHeaps.AddressableHeap.UpdateOrder` | cache_system/src/addressable_heap.rs:137-155 | moves the item in the queue and returns its old order |
| `AddressableHeaps.AddressableHeap.Drain` | cache_system/src/addressable_heap.rs:91-112 | popping to the end yields what iterating would have |
| `AddressableHeaps.SortedUnique` | cache_system/src/addressable_heap.rs:22-31 | there is one ordered queue for a given set of entries |
| `SimpleHeaps.GetRefines` | cache_system/src/addressable_heap.rs:502-507 | map and list answer a lookup alike |
| `SimpleHeaps.RemoveRefines` | cache_system/src/addressable_heap.rs:509-519 | removing a key keeps map and list equal |
| `SimpleHeaps.InsertRefines` | cache_system/src/addressable_heap.rs:473-478 | inserting an item keeps map and list equal |
| `SimpleHeaps.UpdateRefines` | cache_system/src/addressable_heap.rs:521-529 | changing an order keeps map and list equal |
| `SimpleHeaps.PeekRefines` | cache_system/src/addressable_heap.rs:480-500 | the first of the queue is the minimum of the list |
| `SimpleHeaps.DumpRefines` | cache_system/src/addressable_heap.rs:487-491 | the queue in order is the sorted list |
| `SimpleHeaps.Act` | cache_system/src/addressable_heap.rs:557-608 | one action has the same answer and effect on heap and list |
| `SimpleHeaps.Run` | cache_system/src/addressable_heap.rs:557-608 | so has every sequence of actions from empty |
| `PartitionKeys.DecodeEncode` | data_types/src/partition_template.rs:640-681 | percent-decoding undoes the encoding, also in front of other bytes |
| `PartitionKeys.EncodedForm` | data_types/src/partition_template.rs:242-247 | printable characters but for five stand for themselves, all other bytes are a percent sign and two upper-case digits |
| `PartitionKeys.DigitRead` | data_types/src/partition_template.rs:640-681 | escapes are read with digits of either case, and with nothing else |
| `PartitionKeys.EncodeHidesMarkers` | data_types/src/partition_template.rs:105-121 | an encoded value holds no delimiter or marker |
| `PartitionKeys.FittingPrefix` | mutable_batch/src/payload/partition.rs:182-194 | the graphemes that fit are a prefix of the value and leave room for the marker |
| `PartitionKeys.FittingMaximal` | mutable_batch/src/payload/partition.rs:182-194 | as many leading graphemes as fit are kept: one more would reach the limit |
| `PartitionKeys.PartShape` | mutable_batch/src/payload/partition.rs:156-198 | a part is never empty, never too long and holds no delimiter |
| `PartitionKeys.ParseEncodedPart` | data_types/src/partition_template.rs:640-681 | an untruncated part reads back as exactly its value, a truncated one as a prefix of it |
| `PartitionKeys.SplitJoin` | data_types/src/partition_template.rs:609-622 | splitting a key at the delimiter gives back its parts |
| `PartitionKeys.KeyRoundTrip` | data_types/src/partition_template.rs:609-638 | reading a key back gives for every cell exactly what is known of it: nothing for a null, the value, or a prefix |
| `PartitionKeys.TimeTextKeptIff` | data_types/src/partition_template.rs:609-638 | a time part, which is read without decoding, is the text that was rendered exactly when that is not empty, holds no reserved byte and is not truncated |
| `PartitionKeys.KnownIsSound` | data_types/src/partition_template.rs:563-595 | what is read matches exactly the values that start with it, the original among them, and equals exactly the original unless that was truncated |
| `PartitionKeys.RangeMatchesNone` | data_types/src/partition_template.rs:568-595 | a time range neither equals nor matches a text |
| `PartitionKeys.KeyInjective` | data_types/src/partition_template.rs:25-115 | rows with equal keys agree on every untruncated value |
| `PartitionKeys.KeyLength` | data_types/src/partition_template.rs:95-101 | a key of at most eight parts is at most 1607 bytes long |
| `PartitionTime.YearsAdjoin` | data_types/src/partition_template.rs:683-737 | every year ends where the next begins, leap years included |
| `PartitionTime.MonthsClosedForm` | data_types/src/partition_template.rs:694-707 | the months of a year start as the closed form says that does not use their lengths |
| `PartitionTime.DayNumberClosedForm` | data_types/src/partition_template.rs:694-707 | a date is valid exactly when it lies before the first of the next month by the closed form, and its day number is that of the closed form |
| `PartitionTime.DayNumberMonotone` | data_types/src/partition_template.rs:683-737 | later dates have larger day numbers |
| `PartitionTime.DayNumberInjective` | data_types/src/partition_template.rs:683-737 | different dates have different day numbers |
| `PartitionTime.DefaultsIff` | data_types/src/partition_template.rs:738-785 | missing components are filled with the first month, day, hour and minute exactly when none is there without the next coarser one |
| `PartitionTime.TimeOfDay` | data_types/src/partition_template.rs:694 | there is a datetime exactly for a valid date, and its time of day splits into the components read |
| `PartitionTime.ParsePartTimeFormat` | data_types/src/partition_template.rs:683-737 | the range begins at the date read and ends with the finest component named, or there is none |
| `PartitionTime.FinerEndsFirst` | data_types/src/partition_template.rs:696-734 | a day ends before its month does, and a month before its year |
| `PartitionTime.PeriodIsExact` | data_types/src/partition_template.rs:683-786 | a date lies in the period exactly when its named components are those read |
| `PartitionTime.RangeIsExact` | data_types/src/partition_template.rs:683-786 | an instant lies in the range exactly when its named components are those in the key |
| `PartitionTime.EpochIsDayZero` | data_types/src/partition_template.rs:683-777 | the calendar counts days as timestamps do |
| `PartitionTime.UnsupportedHasNoRange` | data_types/src/partition_template.rs:696-734 | any other item in the format means no range |
| `RowKeys.RowKeyJoins` | mutable_batch/src/payload/partition.rs:264-286 | a key without an error joins its parts with the delimiter |
| `RowKeys.PartIsCell` | mutable_batch/src/payload/partition.rs:87-121 | a part renders as the cell it holds: a null for a null or missing tag, otherwise the encoded value or time |
| `RowKeys.RowKeyIsKey` | mutable_batch/src/payload/partition.rs:264-286 | the key generated for a row is the key that reading back undoes |
| `RowKeys.ReducedKey` | mutable_batch/src/payload/partition/strftime.rs:248-257 | rounding down to the day does not change a rendered date |
| `RowKeys.Render` | mutable_batch/src/payload/partition/strftime.rs:190-242 | with the cache or without, a timestamp renders the same; the rendering is kept, in place of the oldest one if it is new, and the cache stays right also after an error |
| `RowKeys.FmtRow` | mutable_batch/src/payload/partition.rs:87-121 | renders the part of the row and remembers it |
| `RowKeys.EvaluateTemplate` | mutable_batch/src/payload/partition.rs:264-286 | renders the key of the row, or fails with its first error, and every part reached remembers the row |
| `PartitionBatch.SamePart` | mutable_batch/src/payload/partition.rs:124-153 | a part that looks as it did in an earlier row renders as it did there, errors included, unless it held a value there without being a tag |
| `PartitionBatch.RepeatedPrefix` | mutable_batch/src/payload/partition.rs:246-252 | a row that looks repeated has the key or error of the row before it, unless that one failed on such a value |
| `PartitionBatch.FallsBackWrong` | mutable_batch/src/payload/partition.rs:246-252 | a row that looks repeated behind one that failed on such a value is given a wrong result |
| `PartitionBatch.RightIff` | mutable_batch/src/payload/partition.rs:206-257 | the first rows of a batch all get their own key or error exactly when none of them falls back like that |
| `PartitionBatch.PartitionKeysOf` | mutable_batch/src/payload/partition.rs:206-257 | yields nothing for exactly the rows in which every part looks as when it was rendered last, and the key or error of the row otherwise |
| `PartitionBatch.RangeEncode` | mutable_batch/src/payload/partition.rs:293-330 | the ranges follow each other over all rows, each of one key, and neighbours differ |
| `PartitionBatch.PartitionBatch` | mutable_batch/src/payload/partition.rs:50-63 | the ranges cover all rows in order, neighbours differ, and every row is in a range with its own key or error exactly when no row falls back |
| `PartitionBatch.OwnKeysIff` | mutable_batch/src/payload/partition.rs:293-330 | merging equal neighbours neither mends nor breaks that |
| `BatchKinds.NeverFallsRight` | mutable_batch/src/payload/partition.rs:50-63 | batches of tags and timestamps are right in all rows, also behind rows without a key, and so are those in which no null follows a value of a column that is not a tag |
| `BatchKinds.RightUpToFirstError` | mutable_batch/src/payload/partition.rs:50-63 | whatever the columns, every row up to the first failing one gets its own key |
| `BatchKinds.KindsRightIff` | mutable_batch/src/payload/partition.rs:124-153 | all batches of given kinds of columns are right exactly when every column that should be a tag but is not one is kept from mattering by an invalid time format; with valid formats, exactly when there is none |
| `BatchKinds.WrongBatch` | mutable_batch/src/payload/partition.rs:50-63 | a value and then a null in a column that is not a tag end up in one range with the error, although the second row has a key |
| `Summaries.MergeSummarises` | data_types/src/lib.rs:1270-1296 | merging the statistics of two columns describes the concatenated column, and the nulls stay known exactly when both numbers are |
| `Summaries.PadSummarises` | data_types/src/lib.rs:1225-1228 | counting nulls summarises the cells padded with nulls |
| `Summaries.FoldSummarises` | data_types/src/lib.rs:1233-1262 | updating cell by cell summarises them, without regard to NaN and null for the extremes |
| `Summaries.SummaryUnique` | data_types/src/lib.rs:1225-1296 | cells that agree up to order have one summary |
| `TableSummaries.TableSummary.Column` | data_types/src/lib.rs:1516-1518 | the column at the first index of the name, and none exactly when no column has it |
| `TableSummaries.TableSummary.UpdateFrom` | data_types/src/lib.rs:1543-1564 | succeeds exactly when shared columns are of one kind and no column is too long to be padded; the columns then become those of the merge, in the same order |
| `TableSummaries.KindsClash` | data_types/src/lib.rs:1085-1110 | two columns of one name and different types cannot be merged |
| `TableSummaries.FindMerged` | data_types/src/lib.rs:1543-1564 | under every name the merge holds the merged, the padded or the added column |
| `TableSummaries.MergeSummarisesTable` | data_types/src/lib.rs:1543-1564 | merging two table summaries summarises the appended rows with nulls for missing columns |
| `TableSummaries.MergeCommutes` | data_types/src/lib.rs:1543-1564 | both merge orders give the same columns up to their order |
| `TableSummaries.StatsCommute` | data_types/src/lib.rs:1085-1110 | merging statistics does not depend on the order |
| `Backoffs.Backoff.constructor` | backoff/src/lib.rs:111-137 | starts within the bounds, the first wait capped by the largest |
| `Backoffs.Backoff.Next` | backoff/src/lib.rs:225-243 | stays within the bounds, charges the next wait to the deadline, returns the one before it, and ends exactly when the deadline is reached or the wait is over a million seconds |
| `Backoffs.RetryWithBackoff` | backoff/src/lib.rs:156-193 | every wait is the one the formula gives, all together stay below the deadline; with a deadline a fresh backoff makes fewer attempts than the deadline holds first waits, plus one; the last attempt decides: it gives up at exactly the first failed attempt at which the waits charged reach the deadline or the next wait is over a million seconds, with a panic if there is no deadline |
| `Backoffs.NeverTooLongIff` | backoff/src/lib.rs:225-243 | no draw ever leads to a wait of more than a million seconds exactly when the first one is not longer and the others are capped at that or cannot grow |
| `Backoffs.TooLongAtOnce` | backoff/src/lib.rs:225-243 | a first wait of a million and one seconds is too long |
| `CancellationSafe.StepKeepsInv` | cache_system/src/cancellation_safe_future.rs:25-116 | every step of futures and receivers keeps the invariant of the drop race |
| `CancellationSafe.NoLeakedTask` | cache_system/src/cancellation_safe_future.rs:25-78 | over all interleavings no task runs on once the last reference is gone, and none is aborted before |
| `CancellationSafe.RescuedWhileHeld` | cache_system/src/cancellation_safe_future.rs:57-78 | a future dropped unfinished while a receiver is held throughout is spawned and its handle stored |
| `CancellationSafe.NobodyWaiting` | cache_system/src/cancellation_safe_future.rs:62-78 | without another receiver at the check nothing is spawned |
| `CancellationSafe.WaitedForIsRescued` | cache_system/src/cancellation_safe_future.rs:57-78 | dropping an unfinished future with receivers spawns it and stores the handle, and dropping the last receiver then aborts it |
| `CancellationSafe.OthersAreNot` | cache_system/src/cancellation_safe_future.rs:57-78 | without receivers, or when the future is done, nothing is spawned |
| `CancellationSafe.NoneReturns` | cache_system/src/cancellation_safe_future.rs:25-57 | nobody gets a receiver once there is none |
| `Executor.StepKeepsInv` | executor/src/lib.rs:260-281 | every step of callers, worker and tasks keeps the handshake invariant |
| `Executor.SignalMeansQuiet` | executor/src/lib.rs:266-280 | completion is signalled only with nothing queued or running, every accepted task finished or cancelled by its dropped job |
| `Executor.GoneMeansRejected` | executor/src/lib.rs:105-118 | a held job hears that the worker is gone exactly when its task was turned away, and gets its result exactly when it ended |
| `Executor.NoneAcceptedAfterShutdown` | executor/src/lib.rs:347-385 | after shutdown the accepted tasks stay the same for ever |
| `Executor.AcceptedInOrder` | executor/src/lib.rs:260-297 | exactly the tasks spawned before shutdown are accepted; those started are the first ones in the order of spawning, and the others wait in that order |
| `Executor.CancelIff` | executor/src/lib.rs:60-127 | a running task can be cancelled exactly when its job was dropped and not detached |
| `Executor.EndsAreFinal` | executor/src/lib.rs:64-127 | finished, cancelled and rejected tasks stay so, and a detached task is never cancelled |
| `Executor.ShutdownNotStuck` | executor/src/lib.rs:264-280 | after shutdown the worker or a task can always move until completion is signalled |
| `Executor.ShutdownCompletes` | executor/src/lib.rs:371-410 | completion is signalled after as many steps of worker and tasks as there was work left, in any interleaving |
| `ParquetFiles.OverlapsMeansShared` | data_types/src/lib.rs:634-636 | two files overlap exactly when they share an instant |
| `ParquetFiles.NeedsSplit` | data_types/src/lib.rs:644-653 | true exactly when some split time cuts the file |
| `TimeSplit.CheckTimes` | compactor_test_utils/src/simulator.rs:315-333 | accepts exactly positive ascending times below the greatest instant |
| `TimeSplit.Ranges` | compactor_test_utils/src/simulator.rs:335-348 | one range per split time and one for the rest, each starting behind the one before |
| `TimeSplit.EvenTimeSplit` | compactor_test_utils/src/simulator.rs:303-400 | one piece more than split times, and total bytes and rows exactly conserved for every rounding of the shares |
| `TimeSplit.SplitTiles` | compactor_test_utils/src/simulator.rs:303-400 | the pieces tile the hull of the inputs exactly when no split time lies before it |
| `TimeSplit.EarlySplitTime` | compactor_test_utils/src/simulator.rs:315-333 | an accepted split time that gives a piece ending before it starts |
| `TimeSplit.TilesOnce` | compactor_test_utils/src/simulator.rs:335-348 | every instant of the hull is in exactly one piece and no other instant is in any |
| `TimeSplit.TilesInstants` | compactor_test_utils/src/simulator.rs:357-371 | pieces that tile a range hold all its instants, so their shares are shares of one whole |
| `TimeSplit.PiecesNeedNoSplit` | data_types/src/lib.rs:644-653 | no piece needs to be split again at the same times |
| `Plans.InsideAccepted` | compactor_test_utils/src/simulator.rs:315-333 | ascending times inside the range are accepted unless the first is not positive |
| `Plans.Simulate` | compactor_test_utils/src/simulator.rs:92-175 | runs exactly the plans with inputs and accepted times; the pieces end at the split times, hold their shares and all together the totals, are at the target level, as new as the newest input, in the given partition and place; they tile the hull unless a time lies before it |
| `Plans.TimeRangePresent` | compactor/src/components/ir_planner/planner_v1.rs:108-112 | true exactly when some file reaches into the range |
| `Plans.TouchesMeansShared` | compactor/src/components/ir_planner/planner_v1.rs:108-112 | a file reaches into a range exactly when they share an instant |
| `Plans.StepTimes` | compactor/src/components/ir_planner/planner_v1.rs:84-104 | the times are exactly the start plus a positive multiple of the interval, below the end, with data in the interval before; they are ascending and inside the range |
| `Plans.TickIs` | compactor/src/components/ir_planner/planner_v1.rs:90-103 | the k-th step lies k intervals behind the start |
| `Plans.Interval` | compactor/src/components/ir_planner/planner_v1.rs:87-88 | the least whole number of instants that is not below the share of the range |
| `Plans.ComputeSplitTimes` | compactor/src/components/ir_planner/planner_v1.rs:70-105 | exactly the times at which stepping by the interval cuts, the interval being the share of the desired bytes rounded up; fewer times than the bytes hold desired sizes |
| `Plans.CompactPlan` | compactor/src/components/ir_planner/planner_v1.rs:168-259 | keeps all inputs; the output is not cut up to the lower cut-off or for many small files, cut at the given percentage of the range, if that is before its end, up to the upper one, and above it at exactly the steps of the interval; a split exactly when something cuts |
| `Plans.CutoffsAre` | compactor/src/components/ir_planner/planner_v1.rs:41-46 | the lower cut-off is the percentage of the desired size rounded down, the upper one lies above the desired size by as much |
| `Plans.AdjacentIff` | compactor/src/components/ir_planner/planner_v1.rs:293-331 | files are compacted into their own level or the next higher one only |
| `Plans.SplitPlans` | compactor/src/components/ir_planner/planner_v1.rs:141-159 | one plan per file, at the level of the file |
| `Plans.CreatePlans` | compactor/src/components/ir_planner/planner_v1.rs:123-164 | the inputs of all plans are exactly the files to work on, in order, cut as said above or at the given times, and there is no plan at all only for an empty list of splits |
| `Plans.OwnTimesInside` | compactor/src/components/file_classifier/split_based.rs:327-332 | these times are ascending and inside the file |
| `Catalog.VerifyCatalogInvariants` | compactor_test_utils/src/lib.rs:838-888 | passes exactly when L1 and L2 are free of overlap and overlapping lower files are at least as new |
| `Catalog.ReplaceOkIff` | compactor_test_utils/src/lib.rs:838-888 | new files that fill a range keep the invariant exactly when every survivor in the range, gaps included, allows them |
| `Catalog.PlanFills` | compactor_test_utils/src/simulator.rs:99-106 | the output of a plan fills the hull of its inputs at one level and age |
| `Catalog.CommitOkIff` | compactor/src/lib.rs:42-66 | an ingest, upgrade, split or compaction keeps the invariant exactly when its guard holds |
| `Catalog.SplitNeedsNoGuard` | compactor/src/components/ir_planner/planner_v1.rs:141-159 | splitting a file at its own level always keeps the invariant |
| `Catalog.RunOkIff` | compactor/src/lib.rs:42-66 | over every run the invariant holds throughout exactly when every commit met its guard |
| `FilesSplit.TimeRange` | compactor/src/file_group.rs:17-29 | the hull of the files, or none for no files |
| `FilesSplit.OrderFiles` | compactor/src/components/divide_initial/multiple_branches.rs:150-164 | a permutation, L0 files by age and then time, others by time |
| `FilesSplit.OverlapsInTime` | compactor/src/file_group.rs:44-49 | true exactly when some file overlaps |
| `FilesSplit.ThreeRangeSplit` | compactor/src/components/files_split/non_overlap_split.rs:154-175 | every file goes to exactly one of before, during and after |
| `FilesSplit.NonOverlapSplit` | compactor/src/components/files_split/non_overlap_split.rs:73-150 | every file is compacted or kept; if target-level files do not overlap, each kept one is clear of the whole range of what is compacted, and kept are exactly those at or beyond a large one outside the range of the lower level, or all if there is nothing below |
| `FilesSplit.FindCandidates` | compactor/src/components/files_split/upgrade_split.rs:95-119 | exactly the files that are large, outside the target range and do not overlap another file of their level |
| `FilesSplit.FreeInsideHull` | compactor/src/components/files_split/upgrade_split.rs:124-139 | a file that overlaps none of a group but reaches into its range lies inside it, so a range computed once stays right |
| `FilesSplit.UpgradeOutside` | compactor/src/components/files_split/upgrade_split.rs:124-139 | the upgraded files are clear of the final range of what is compacted |
| `FilesSplit.UpgradeSplit` | compactor/src/components/files_split/upgrade_split.rs:63-142 | upgraded are exactly the files out of reach of those that have to be compacted: target-level files, small ones, and ones that reach into the target range or overlap another of their level; upgraded files do not overlap each other and are clear of what is compacted |
| `Classifier.TargetLevel` | compactor/src/components/file_classifier/split_based.rs:159-195 | every file is compacted, upgraded or kept once, and the three are kept apart at the target level; kept are exactly the higher files and those left alone, and upgraded exactly those of the others that are out of reach |
| `Classifier.OkApart` | compactor/src/components/files_split/non_overlap_split.rs:42-44 | the catalog invariant is what picking relies on |
| `Classifier.TargetLevelOkIff` | compactor/src/lib.rs:42-66 | committing what was picked keeps the invariant exactly when every kept file of a higher level that reaches into the compacted range is at most as new; kept files may be those of other branches that lie clear |
| `Classifier.CompactedOkIff` | compactor_test_utils/src/simulator.rs:92-175 | the same for the output of a plan that was run |
| `Classifier.FinalLevelOk` | compactor/src/lib.rs:42-66 | compaction to L2 always keeps the invariant |
| `Classifier.GapBridged` | compactor/src/lib.rs:42-66 | two L0 files around a newer L2 file, compacted to L1, break it |
| `Classifier.VerticalSplit` | compactor/src/components/file_classifier/split_based.rs:315-356 | every file with exactly the split times that cut it; fails exactly when some file has none |
| `Classifier.VerticalPiecesDone` | compactor/src/components/file_classifier/split_based.rs:315-356 | after a vertical split no piece is cut by any split time of the round |
| `ManyFiles.ManySmallFiles` | compactor/src/components/file_classifier/split_based.rs:252-294 | orders the files and computes the grouping function on them in one pass, with the skip size the code computes |
| `ManyFiles.GroupPartitions` | compactor/src/components/file_classifier/split_based.rs:223-311 | every file is grouped or kept, and the group is a run of consecutive small files within the limits, never a single one |
| `ManyFiles.GroupIsFirstRun` | compactor/src/components/file_classifier/split_based.rs:252-297 | grouped is exactly the first run of two or more files that fit, up to the limit of files, and nothing exactly when there is none |
| `ManyFiles.FirstRunUnique` | compactor/src/components/file_classifier/split_based.rs:252-297 | there is one such run at most |
| `ManyFiles.LoneFileIff` | compactor/src/components/file_classifier/split_based.rs:282-297 | it panics exactly when the last file fits the byte limits and no two files that fit are adjacent, bytes counted as the code counts them; with one file to a group, exactly when the run of fitting files at the end is of odd length |
| `ManyFiles.LoneFiles` | compactor/src/components/file_classifier/split_based.rs:282-297 | a small file alone or behind a large one makes it panic |
| `ManyFiles.NothingGrouped` | compactor/src/components/file_classifier/split_based.rs:252-281 | with one file to a group, none is made |
| `LimitFiles.FindAlong` | compactor/src/components/split_or_compact/files_to_compact.rs:149-157 | exactly the target-level files not taken yet that reach into the range of the files up to this one |
| `LimitFiles.FindDrawn` | compactor/src/components/split_or_compact/files_to_compact.rs:159-173 | going to L2, the files behind this one that reach into the range of what comes along, which follow it without a gap |
| `LimitFiles.OneMoreTaken` | compactor/src/components/split_or_compact/files_to_compact.rs:135-197 | after every step the target-level files taken are exactly those that reach into the range of the files taken |
| `LimitFiles.SpecificSplits` | compactor/src/components/split_or_compact/files_to_compact.rs:202-226 | exactly the target-level files that the starts of further files cut, each with exactly those starts |
| `LimitFiles.ChosenIsWell` | compactor/src/components/split_or_compact/files_to_compact.rs:20-93 | kept target-level files are clear of the whole range compacted; going to L2 all kept files are; going to L1 kept L0 files are at least as new as those compacted |
| `LimitFiles.PickPrefix` | compactor/src/components/split_or_compact/files_to_compact.rs:125-262 | takes a prefix of the lower level step by step within the limits, with exactly the target-level files it reaches, and stops only where the next step would exceed them; if that is the first, the target-level file it overlaps is split exactly when a further file cuts it, and otherwise both are handed on |
| `LimitFiles.LimitFilesToCompact` | compactor/src/components/split_or_compact/files_to_compact.rs:95-318 | does so for the files in their order; every file is picked or kept once, and what is kept is clear of what is picked as said above |
| `RoundCommits.HigherInGap` | compactor/src/lib.rs:42-66 | above the target level only files in a gap between the inputs decide: those that overlap an input are at most as new |
| `RoundCommits.GroupedOkIff` | compactor/src/components/file_classifier/split_based.rs:223-311 | compacting L0 files into L0 files keeps the invariant exactly when every L1 or L2 file in a gap between them is at most as new |
| `RoundCommits.RoundIsRun` | compactor/src/components/file_classifier/split_based.rs:159-195 | a round is a run of the catalog, the plan and then the upgrades, that ends in the files kept, made and upgraded, and every upgrade meets its guard |
| `RoundCommits.RoundOkIff` | compactor/src/lib.rs:42-66 | a round keeps the invariant throughout exactly when every file above the target level in a gap of the compacted files is at most as new as the newest of them |
| `RoundCommits.LimitedOkIff` | compactor/src/components/split_or_compact/files_to_compact.rs:20-93 | compacting a part keeps the invariant exactly when the files outside the branch allow it and no kept L0 file in reach is older than an L1 file that came along without overlapping it |
| `RoundCommits.LimitedFinalOkIff` | compactor/src/components/split_or_compact/files_to_compact.rs:70-93 | going to L2 the kept files never break it |
| `RoundCommits.PickedAround` | compactor/src/components/split_or_compact/files_to_compact.rs:22-43 | going to L1 they can: of three L0 files the two oldest are picked with a newer L1 file between them, and the third reaches into their range |
| `CatalogStore.LiveAt` | iox_catalog/src/mem.rs:1035-1079 | a file is live once or not at all |
| `CatalogStore.Table.CreateUpgradeDelete` | iox_catalog/src/mem.rs:986-1019 | all changes are applied or none; succeeds exactly when every file to delete is known and every new one has an object store id of its own and a known partition; new ids follow the old ones |
| `CatalogStore.FlagForDelete` | iox_catalog/src/mem.rs:1068-1079 | flags exactly the files named, and fails exactly when one is unknown |
| `CatalogStore.CreateAll` | iox_catalog/src/mem.rs:1035-1066 | new files get the next ids in order, and one that cannot be stored fails them all |
| `CatalogStore.UpdateLevel` | iox_catalog/src/mem.rs:1081-1098 | sets the level of the files named and of no others |
| `CatalogStore.LiveAfter` | iox_catalog/src/mem.rs:986-1019 | the live files change by exactly the deleted, upgraded and created ones |
| `Driver.ExecutePlan` | compactor/src/driver.rs:589-708 | tries powers of two of permits up to the total until one does not run out of memory, and returns that outcome |
| `Driver.WellFormedIff` | compactor_scheduler/src/local_scheduler/catalog_commit.rs:41-56 | a request is well-formed exactly when it replaces some files by some others, or replaces none and upgrades some |
| `Driver.Commit` | compactor_scheduler/src/local_scheduler/catalog_commit.rs:33-82 | refuses exactly the requests that change nothing or only delete or only create, without a trace, and otherwise returns the ids of the created files |
| `Driver.UpdateCatalog` | compactor/src/driver.rs:740-786 | commits exactly the well-formed requests the catalog accepts, and returns the created and upgraded files as the catalog holds them |
| `Driver.CommitChunk` | compactor/src/driver.rs:428-482 | a chunk replaces its inputs and upgrades by what it returns, or changes nothing; it succeeds exactly when its plans do, the request is well-formed and the catalog accepts it |
| `Branches.ExecuteBranch` | compactor/src/driver.rs:355-511 | succeeds exactly when every chunk of four times the permits runs, has a well-formed request and can be stored besides all that was created before; returns, chunk by chunk, the created files with the next ids and the upgraded ones at the target level, and then the kept ones; otherwise stops at the first chunk that fails, with exactly the chunks before it committed |
| `Branches.UpgradeReturned` | compactor/src/driver.rs:474-508 | all files to upgrade are among those returned, at the target level, once the first chunk is committed |
| `Branches.StoredCreatable` | iox_catalog/src/mem.rs:1035-1066 | what can be stored in the table a chunk meets is what can be stored besides all that the chunks before it created |
| `Rounds.CommitKeepsInv` | compactor/src/driver.rs:421-507 | a chunk commit of any size by any branch keeps files in memory equal to live files |
| `Rounds.StillDeletedOnce` | compactor/src/driver.rs:428-431 | a file is never asked to be deleted a second time |
| `Rounds.RunKeepsInv` | compactor/src/driver.rs:250-351 | so does every run of commits and new rounds |
| `Rounds.NoFileLost` | compactor/src/driver.rs:250-351 | whenever the branches of a round are done, what they return and what was held back are exactly the live files, each once, and every upgrade handed out was committed once |
| `Rounds.ReturnsAllIff` | compactor/src/driver.rs:420-510 | a branch without plans returns all it holds exactly when it has nothing to upgrade |
| `Conservation.ChunkConserves` | compactor/src/driver.rs:563-585 | the output of a chunk has the rows and bytes of its inputs, in whatever order its plans finish |
| `Conservation.InputsPermute` | compactor/src/driver.rs:563-585 | plans in another order have the same inputs |
| `Conservation.OutOfOrder` | compactor/src/driver.rs:563-585 | the later of two plans may deliver first |
| `Conservation.CommitConserves` | compactor/src/driver.rs:740-786 | a commit leaves the rows and bytes of all live files as they were |
| `Conservation.RunConserves` | compactor/src/driver.rs:250-351 | over all rounds and interleavings no row and no byte is lost or made up |

## Left out

- Machine integers: sizes, offsets, ids and timestamps are unbounded; only the largest dictionary key and string offset are limited.
- Floating point: backoff uses reals, shares of bytes and rows use any rounding, and the interval between split times is the exact quotient rounded up.
- Text: values are bytes, graphemes any segmentation, time parts are already parsed into components; UTF-8 checks and the limits of chrono dates are not modelled.
- Capacities, memory-size estimates and conversions to Arrow arrays.
- Distinct counts of statistics, `Backoff::fade_to`, and the configuration's infinite or NaN numbers.
- DataFusion, object store, scratchpad, gossip, metrics, logging and the scheduler: running a plan is the simulator or any function.
- Dividing files into rounds, ranges and branches (`round_info_source`): the model takes any dealing-out that gives each file one place.
- The two splits around picking a part (`identify_start_level_files_to_split` before, `compute_split_times_for_large_files` after): splitting one file at its own level is covered by `Catalog.SplitNeedsNoGuard`.
- The order in which a branch lists its files: contents are stated up to order.
- PartitionKeys.KeyRoundTrip: takes the reading of time parts as a parameter, which `PartitionTime` treats on its own; `PartitionKeys.TimeTextKeptIff` says when it is given the rendered text.
- PartitionKeys.TimeTextKeptIff: says nothing of a text that is too long and itself ends in the mark of a truncated part.
- Driver.Commit: returns a refusal by the catalog, where the code asks it again without end.
- Executor.ShutdownCompletes: counts steps of worker and tasks; that a running task does finish is up to its code.
- `tasks()` of the executor and dropping the executor itself.
