# xdb: a verified model of the storage engine

xdb is an LSM-tree key-value store. Writes go to a write-ahead log and a skip-list memtable, full
memtables become sorted tables in level 0, and a background thread merges tables into deeper levels.
This Dafny project models the engine part by part and proves what each part promises to the others,
up to the statement about the whole store: whatever interleaving of writes, rotations, flushes, file
moves, merges and readers takes place, a read gives the answer of a plain map.

## How the parts fit

| part | modules |
|---|---|
| bytes, varints, checksums | `Base`, `Coding` |
| write-ahead log | `Log` |
| keys and separators | `Comparator` |
| sorted tables, byte for byte | `Block`, `BlockReader`, `Format`, `Table`, `TableBuilder`, `TableReader`, `TwoLevel` |
| filters | `Bloom`, `FilterBlock` |
| memtable | `SkipList`, `MemTable`, `WriteBatch` |
| versions of keys, files and levels | `Entries`, `Version` |
| manifest and version builder | `Manifest`, `EditCodec` |
| choosing and running compactions | `Pick`, `Merging`, `MergeInput`, `Compaction`, `Edits`, `Merge`, `FaultyMerge` |
| the whole store | `Lsm`, `LsmSteps`, `LostWrite`, `MissedInput` |
| threads | `GroupCommit`, `Writers`, `Background`, `Garbage` |
| table cache | `HandleTable`, `HandleList`, `Cache` |

Objects the source updates in place are classes here, with the source's fields; ghost fields say what
the bytes mean. Protocols between threads (`Lsm`, `Writers`, `Background`, `Garbage`) are state
machines whose steps are what a thread does between taking the lock and releasing it. Results about
runs hold for every sequence of enabled steps.

In `Entries`, and from there up to `LsmSteps`, a user key is its place in the comparator's order,
written as a real number. `Comparator.RankEmbeds` shows that the bytewise order embeds in the reals,
`Comparator.InternalIsBefore` that internal keys compare as the versions they stand for, and
`MemTable.MemTable.Get` is proved in these terms. Sequence numbers and file numbers are unbounded
there; in the byte-level modules their width is explicit.

## Where the code does not do what it is meant to do

The code is modelled as it stands. Where a promise fails, a lemma shows an input, another gives the
exact condition under which it holds, and a rule parameter allows the evident repair to be studied
beside it.

- **Merges drop the newest version** (`dbimpl.cc:616-629`). `same_key` is set on the first occurrence of
  a user key, so a merge drops the newest version and keeps the older ones. `LostWrite.MergeLosesPut` is a
  run of the store that loses a write this way; `Merge.AsWrittenKeepsIff` for a key and
  `LsmSteps.MapShownIff` for a merge say exactly when no answer changes.
- **Merges can leave a level unsorted** (same lines). Two older versions of a key that both survive can be
  cut into two files, whose ranges then meet. `FaultyMerge.AsWrittenApartIff` is the condition.
- The promise for whole runs is proved for both drop rules (`Compaction.DropRule`) and all runs in which no
  merge does harm in these two ways (`FaultyMerge.Harmless`): these are exactly the runs that keep the
  store's invariant (`LsmSteps.InvAlongIff`), and under the repaired rule that is every run
  (`LsmSteps.RepairedIsHarmless`).
- **Group commit loses followers** (`dbimpl.cc:148`). For each follower the leader's batch is appended
  again. `Writers.SuccessButLost` is a run, `GroupCommit.AsWrittenSafeIff` the condition on a group, and
  `Writers.LoneRunsAgree` carries it over to runs.
- **Compaction ranges are inside out** (`version.cc:615` and `:618`). `MissedInput.ReadLosesPut` is a run of
  the store after which a merge of the inputs so chosen puts its output over a file that it left out, and
  a lookup no longer finds a key of that file, although the merge drops nothing. `Pick.CoreIsHullIff` and
  `Pick.CoreInputsValidIff` say when the inputs are what a compaction needs, and
  `MissedInput.NextLevelSortedIff` when the next level stays sorted. The state machine starts compactions
  from valid inputs only.
- **The boundary search finds nothing** (`version.cc:679-700`). It starts from the largest key of the
  whole level. `Pick.NoBoundaries` proves it; nothing else depends on it.
- **The first inputs never grow** (`version.cc:750-774`). `Pick.NeverGrows`.
- **64-bit varints end at 2^32** (`coding.cc:67`). The decoder's accumulator has 32 bits, and from 2^35 on
  it is shifted out of range. `Coding.Varint64RoundTripIff`, `Format.HandleRoundTripIff` and
  `EditCodec.EditRoundTripIff` are the exact boundaries; tables are read back below 2^32 bytes.
- **Block checksums miss the type byte** (`sstable_builder.cc:194-197`). `Format.ReadBackIff` says when a
  block still passes verification. Reading is modelled with `check_crc` off, the default.
- **Damage inside a log record is cut out of it** (`log_reader.cc:50-52`). The reader skips a fragment that
  fails its checksum and goes on with the record it was putting together, so that a record comes out that
  nobody wrote. `Log.DamagedBlockIsCutOut`; `Log.RecordIntact` is what every record read is made of.
- **Logs pile up while the store is open** (`dbimpl.cc:333-341`). Rotation leaves `logfile_number_` alone, so
  that collection spares every log made since the store was opened. `Garbage.SessionLogsStay`.
- **A full level 0 at open stalls writers.** `DB::Open` does not schedule a compaction, so the first
  writer waits for a job that nobody starts. `Background.WaitersHaveJobsIff`; with four files or more they
  are not compacted before the first rotation, `Background.WorkHasJobIff`.
- `MakeRoomForWrite`'s error is overwritten before it is looked at (`dbimpl.cc:255-266`): in `Writers` a
  leader writes whatever it returned.
- An empty batch is logged, but recovery asserts that there is none (`writebatch.cc:15`).
  `WriteBatch.RecoverLogFile`.
- The table builder stores the wrong handle for the filter index (`sstable_builder.cc:240`) and the
  reader reuses a consumed slice (`sstable_reader.cc:160-164`). Tables are modelled without a filter
  policy, the default, and filter blocks on their own.

## Model

| member | source | states |
|---|---|---|
| Coding.Fixed32RoundTrip | xdb/src/util/coding.cc:82-89 | a 32-bit number read back from any buffer that begins with its encoding is the number modulo 2^32 |
| Coding.Fixed32Bytes | xdb/src/util/coding.cc:82-89 | the lowest byte comes first |
| Coding.Fixed32Back | xdb/src/util/coding.cc:82-89 | decoding and encoding again gives the same four bytes |
| Coding.Fixed64RoundTrip | xdb/src/util/coding.cc:91-101 | a 64-bit number reads back |
| Coding.EncodeVarint | xdb/src/util/coding.cc:14-36 | the encoder writes seven bits a byte, low bits first |
| Coding.DecodeVarint32 | xdb/src/util/coding.cc:50-64 | the decoding loop, against its recursive definition, on every input |
| Coding.Varint32RoundTrip | xdb/src/util/coding.cc:38-64 | a 32-bit varint reads back and leaves the rest of the slice |
| Coding.Varint64RoundTripIff | xdb/src/util/coding.cc:66-80 | a 64-bit varint reads back exactly if it is below 2^32 |
| Coding.Varint64LosesHighBits | xdb/src/util/coding.cc:66-80 | 2^32 is read back as zero |
| Coding.VarintLength | xdb/src/util/coding.cc:5-12 | counts the bytes the encoder writes |
| Coding.VarintBytes | xdb/src/util/coding.cc:14-36 | in two bytes the low seven bits come first, with the top bit set |
| Coding.LengthPrefixedRoundTrip | xdb/src/util/coding.cc:127-141 | a length-prefixed slice reads back and leaves the rest |
| Coding.CrcMaskRoundTrip | xdb/src/util/coding.cc:143-150 | unmasking undoes masking |
| Coding.CrcUnmaskRoundTrip | xdb/src/util/coding.cc:143-150 | masking undoes unmasking |
| Log.Writer.AddRecord | xdb/src/db/log/log_writer.cc:27-64 | the loop appends exactly the fragments of the record for its file position, so that the file is the log of one more record |
| Log.Writer.WritePhysicalRecord | xdb/src/db/log/log_writer.cc:65-84 | one fragment: header, payload, advanced block offset |
| Log.Reader.ReadPhysicalRecord | xdb/src/db/log/log_reader.cc:60-113 | one fragment, against the pure reader, on every file content |
| Log.Reader.ReadNext | xdb/src/db/log/log_reader.cc:22-58 | the reassembly loop, against the pure reader, on every file content |
| Log.ReadBackRecord | xdb/src/db/log/log_reader.cc:22-113 | from any position, a record is read back exactly if the file holds it to its last byte |
| Log.TruncatedLog | xdb/src/db/log/log_reader.cc:22-113 | cut a log at any byte: the reader returns, in order, the records that lie wholly before the cut, and stops |
| Log.CompleteIs | xdb/src/db/log/log_writer.cc:27-64 | how many records those are, by the lengths of the logs of fewer and of more records |
| Log.LogRoundTrip | xdb/src/db/log/log_reader.cc:22-58 | a whole log reads back as the records written |
| Log.FragmentIntact | xdb/src/db/log/log_reader.cc:60-113 | whatever the file holds, a fragment that is delivered stands in it byte for byte as the writer makes it, checksum included |
| Log.RecordIntact | xdb/src/db/log/log_reader.cc:22-58 | whatever the file holds, a record that is delivered is put together, in order, from such fragments |
| Log.DamagedBlockIsCutOut | xdb/src/db/log/log_reader.cc:22-58 | a damaged block inside a long record: the reader delivers, as one record, what is left when the part in that block is cut out |
| Block.Builder.Add | xdb/src/db/sstable/block_builder.cc:12-35 | appends an entry; the buffer stays the described, maximally prefix-compressed layout with a restart point every interval |
| Block.Builder.CommonPrefix | xdb/src/db/sstable/block_builder.cc:15-21 | the longest common prefix of two keys |
| Block.Builder.Finish | xdb/src/db/sstable/block_builder.cc:37-44 | the finished block: entries, restart offsets, their number |
| Block.RestartAt | xdb/src/db/sstable/block_reader.cc:173-175 | the j-th restart offset read back |
| BlockReader.ParseAt | xdb/src/db/sstable/block_reader.cc:184-208 | every entry of a layout parses back to its key suffix and value |
| BlockReader.BlockDetermines | xdb/src/db/sstable/block_reader.cc:184-218 | a finished block determines its entries |
| BlockReader.Iter.SeekNextKey | xdb/src/db/sstable/block_reader.cc:184-208 | decodes the entry behind the current value and keeps the restart index; the error branch is not reached on a built block |
| BlockReader.Iter.Next | xdb/src/db/sstable/block_reader.cc:59-62 | moves to the following entry, or off the end |
| BlockReader.Iter.Prev | xdb/src/db/sstable/block_reader.cc:64-78 | undoes Next; before the first entry the iterator becomes invalid |
| BlockReader.Iter.SearchRestarts | xdb/src/db/sstable/block_reader.cc:97-121 | the binary search finds the last restart point in its range with a key below the target, or the first in the range |
| BlockReader.Iter.Seek | xdb/src/db/sstable/block_reader.cc:80-137 | from any position, valid or not, lands on the first entry not below the target |
| BlockReader.Iter.SeekToFirst | xdb/src/db/sstable/block_reader.cc:138-141 | the first entry |
| BlockReader.Iter.SeekToLast | xdb/src/db/sstable/block_reader.cc:143-146 | the last entry |
| Comparator.RankEmbeds | xdb/src/include/slice.h:62-72 | the bytewise order embeds in the reals, and only equal strings compare equal |
| Comparator.CompareTotal | xdb/src/util/comparator.cc:9-11 | it is a total order |
| Comparator.FindShortestMiddle | xdb/src/util/comparator.cc:15-31 | where the keys part with room for a byte between them, the key is cut off there and raised, and stays below the limit; otherwise it is left alone |
| Comparator.FindShortestBigger | xdb/src/util/comparator.cc:32-41 | leaves exactly the keys of 0xff bytes alone and raises the first other byte otherwise |
| Comparator.InternalTotal | xdb/src/db/format/internal_key.cc:42-55 | internal keys are totally ordered |
| Comparator.InternalIsBefore | xdb/src/db/format/internal_key.cc:42-55 | internal keys compare as the versions they stand for: user key ascending, sequence number descending |
| Comparator.ParseRoundTrip | xdb/src/db/format/internal_key.cc:4-20 | an internal key parses back to user key, sequence number and type |
| Comparator.FindShortestInternalMiddle | xdb/src/db/format/internal_key.cc:57-66 | the separator lies in [last key, next key), no key in the gap it opens has the next key's user key, and it is shorter exactly if the user keys part with room before the last byte |
| Comparator.FindShortestInternalBigger | xdb/src/db/format/internal_key.cc:68-76 | the last separator is not below the last key, and is another key exactly if a byte other than 0xff comes before the last byte of the user key |
| Comparator.FirstGeIsNewest | xdb/src/db/format/internal_key.cc:22-34 | the first key not below a lookup key is the newest version at or below its sequence number, or of another user key |
| Format.HandleRoundTripIff | xdb/src/db/sstable/block_format.cc:12-23 | a block handle reads back exactly if both numbers are below 2^32 |
| Format.ReadBackIff | xdb/src/db/sstable/block_format.cc:50-110 | a written block, compressed or not, is read back exactly if checksums are not verified or the type byte does not change the checksum |
| Format.WrittenIs | xdb/src/db/sstable/sstable_builder.cc:164-202 | a stored block is compressed, with type 1, exactly if Snappy is on and makes something of it |
| Format.FooterRoundTrip | xdb/src/db/sstable/block_format.cc:25-47 | the footer leads to the index block |
| Table.ProbeIsFirstGe | xdb/src/db/sstable/sstable_reader.cc:151-178 | one probe behind the first separator not below the target finds the table's first entry not below it, unless that has another user key |
| Table.IndexSorted | xdb/src/db/sstable/sstable_builder.cc:126-135 | the separators in the index are sorted |
| TableBuilder.Builder.Add | xdb/src/db/sstable/sstable_builder.cc:114-147 | appends an entry to the table's contents; the open block is written exactly when it has reached the block size; blocks, handles and separators stay consistent |
| TableBuilder.Builder.Flush | xdb/src/db/sstable/sstable_builder.cc:149-160 | writes the open block, if it has entries, and leaves the contents as they are |
| TableBuilder.Builder.WriteBlock | xdb/src/db/sstable/sstable_builder.cc:164-202 | the block stands in the file at the handle returned |
| TableBuilder.Builder.Finish | xdb/src/db/sstable/sstable_builder.cc:204-250 | the file is a table of exactly the entries added, as long as sizes stay below 2^32 |
| TableReader.OpenTable | xdb/src/db/sstable/sstable_reader.cc:31-64 | opening any finished table gives its index block |
| TableReader.ReadBlockHandle | xdb/src/db/sstable/sstable_reader.cc:118-142 | an index entry gives the block it points to |
| TableReader.Reader.InternalGet | xdb/src/db/sstable/sstable_reader.cc:151-178 | hands on the table's first entry not below the key, unless that has another user key |
| TableReader.LookupFindsNewest | xdb/src/db/sstable/sstable_reader.cc:151-178 | hence a lookup finds the newest version at or below its sequence number in the whole table |
| TwoLevel.SamePointer | xdb/src/util/iterator.cc:147-158 | equal handles lead to equal blocks, so keeping the loaded block is right |
| TwoLevel.TwoLevelIterator.UpdateDataBlock | xdb/src/util/iterator.cc:147-159 | the data iterator is over the block of the current index entry, and null without one; it is kept exactly if the handle is the same |
| TwoLevel.TwoLevelIterator.SkipForward | xdb/src/util/iterator.cc:161-181 | goes on over empty blocks without missing an entry |
| TwoLevel.TwoLevelIterator.SkipBackward | xdb/src/util/iterator.cc:161-181 | goes back over empty blocks without missing an entry |
| TwoLevel.TwoLevelIterator.Next | xdb/src/util/iterator.cc:183-187 | the next entry of the concatenated blocks |
| TwoLevel.TwoLevelIterator.Prev | xdb/src/util/iterator.cc:189-193 | the previous entry of the concatenated blocks; undoes Next |
| TwoLevel.TwoLevelIterator.Seek | xdb/src/util/iterator.cc:195-202 | the first entry of the whole table not below the key |
| TwoLevel.TwoLevelIterator.SeekToFirst | xdb/src/util/iterator.cc:204-211 | the first entry of the whole table |
| TwoLevel.TwoLevelIterator.SeekToLast | xdb/src/util/iterator.cc:213-220 | the last entry of the whole table |
| Bloom.OrSets | xdb/src/db/filter/bloom.cc:36-40 | setting a bit of a byte sets that bit and no other |
| Bloom.CreateFilter | xdb/src/db/filter/bloom.cc:23-43 | appends a filter of the wanted size in which exactly the probed bits of the keys are set |
| Bloom.KeyMayMatch | xdb/src/db/filter/bloom.cc:45-64 | true exactly if all probes hit or the probe count is not understood |
| Bloom.NoFalseNegative | xdb/src/db/filter/bloom.cc:23-64 | a key the filter was made for matches, for any hash function |
| Bloom.MatchesIff | xdb/src/db/filter/bloom.cc:23-64 | false positives: a key matches exactly if each of its probes falls on a probe of some key that the filter was made for |
| FilterBlock.FilterBlockBuilder.AddKey | xdb/src/db/filter/filter_block.cc:21-24 | the key is on its way into the filter of the block offset last started |
| FilterBlock.FilterBlockBuilder.StartBlock | xdb/src/db/filter/filter_block.cc:13-19 | every key added so far is in, or on its way to, the filter of its own offset |
| FilterBlock.FilterBlockBuilder.GenerateFilter | xdb/src/db/filter/filter_block.cc:39-59 | one more filter, for the keys since the last one |
| FilterBlock.FilterBlockBuilder.Finish | xdb/src/db/filter/filter_block.cc:26-37 | a filter block in which every key added is in the filter of its offset |
| FilterBlock.FilterBlockReader.KeyMayMatch | xdb/src/db/filter/filter_block.cc:60-86 | on a finished block: no for an offset whose filter has no keys, yes past the last filter, and otherwise what the offset's filter says |
| FilterBlock.CoveredSays | xdb/src/db/filter/filter_block.cc:73-86 | a key of the filter that the offset falls into is never denied |
| SkipList.LevelsNest | xdb/src/db/memtable/skiplist.h:180-201 | every level's chain is a sublist of the level below, and level 0 is the whole list |
| SkipList.ChainIs | xdb/src/db/memtable/skiplist.h:130-145 | a level's chain holds, in order, exactly the nodes that reach it |
| SkipList.NextAfterInsert | xdb/src/db/memtable/skiplist.h:197-200 | where each link leads after an insertion |
| SkipList.List.FindGreaterOrEqual | xdb/src/db/memtable/skiplist.h:130-145 | the first node not below the key, and on each level the last node before it |
| SkipList.List.FindLess | xdb/src/db/memtable/skiplist.h:147-161 | the last node below the key, or the head |
| SkipList.List.FindLast | xdb/src/db/memtable/skiplist.h:163-177 | the last node, or the head |
| SkipList.Splice | xdb/src/db/memtable/skiplist.h:197-200 | the linking loop leaves every level linked for the longer list |
| SkipList.List.Insert | xdb/src/db/memtable/skiplist.h:179-201 | for every height: the sorted list with the key before the first one not below it, in a node of that height |
| SkipList.List.Contain | xdb/src/db/memtable/skiplist.h:203-207 | whether a key that compares equal is in the list |
| SkipList.Iter.Seek | xdb/src/db/memtable/skiplist.h:223-226 | the first node not below the key |
| SkipList.Iter.Prev | xdb/src/db/memtable/skiplist.h:209-216 | the last node with a smaller key, if any; undoes Next exactly if the node before has a smaller key |
| SkipList.Iter.SeekToLast | xdb/src/db/memtable/skiplist.h:228-234 | the last node, and invalid for an empty list |
| MemTable.RecordParts | xdb/src/db/memtable/memtable.cc:29-53 | an internal key and a value, each behind its length, decode one after the other |
| MemTable.RecordAgainst | xdb/src/db/memtable/memtable.cc:20-24 | how a record compares with a lookup key |
| MemTable.MemTable.Put | xdb/src/db/memtable/memtable.cc:35-53 | adds one record, of the given type, to the memtable's records, whatever the skip list's height choice |
| MemTable.MemTable.Get | xdb/src/db/memtable/memtable.cc:55-80 | the newest record of the user key at or below the sequence number decides by its own type and value; a miss means there is none |
| MemTable.LastWriteReads | xdb/src/db/memtable/memtable.cc:35-80 | after a put the value is read, and after a deletion that there is none, at its number and above |
| MemTable.OtherReadsStay | xdb/src/db/memtable/memtable.cc:35-80 | reads at older numbers and of other keys are as before |
| WriteBatch.Batch.Put | xdb/src/db/writebatch/writebatch.cc:24-29 | one more operation at the end |
| WriteBatch.Batch.Delete | xdb/src/db/writebatch/writebatch.cc:31-35 | one more operation at the end |
| WriteBatch.Batch.Append | xdb/src/db/writebatch/writebatch.cc:5-8 | concatenation of operations |
| WriteBatch.ReplayIs | xdb/src/db/writebatch/writebatch.cc:37-74 | iterating over encoded operations replays them in order |
| WriteBatch.InsertMemTable | xdb/src/db/writebatch/writebatch.cc:76-81 | on well-formed and on broken bytes: the i-th replayed operation becomes a version numbered base + i; what precedes an error stays |
| WriteBatch.VersionStored | xdb/src/db/writebatch/writebatch.cc:37-81 | a Put stores its value and a Delete a deletion, under its key and its own number |
| WriteBatch.NothingElseStored | xdb/src/db/writebatch/writebatch.cc:37-81 | nothing else is stored |
| WriteBatch.BatchReplays | xdb/src/db/writebatch/writebatch.cc:37-81 | a well-formed batch replays without error |
| WriteBatch.RecoverLogFile | xdb/src/db/dbimpl.cc:435-485 | recovery puts exactly the logged versions into tables, a new one where the memtable was full and nowhere else, and finds the maximum of base + count; with assertions on it aborts exactly if a logged batch is empty |
| WriteBatch.OpRecovered | xdb/src/db/dbimpl.cc:435-485 | every logged Put is in a table with its value, every logged Delete as a deletion, under its number |
| WriteBatch.OnlyOpsRecovered | xdb/src/db/dbimpl.cc:435-485 | and nothing else is in a table |
| WriteBatch.NumbersNotReused | xdb/src/db/dbimpl.cc:450-464 | that maximum is above every sequence number in the log |
| Entries.SeekFinds | xdb/src/db/version/version.cc:67-80 | the first entry at or after a lookup key answers for a sorted run of entries |
| Entries.FindsLayered | xdb/src/db/dbimpl.cc:170-180 | looking into newer data first and below it on a miss finds the newest version of all |
| Version.FindFile | xdb/src/db/version/version.cc:86-106 | the binary search on any list; in a sorted level, the first file whose largest key is not below the key |
| Version.ProbeLevel | xdb/src/db/version/version.cc:126-138 | one file per sorted level answers for the level |
| Version.ProbeLevel0 | xdb/src/db/version/version.cc:108-125 | level 0 files from the newest on, up to the first hit, answer for the level |
| Version.Get | xdb/src/db/version/version.cc:108-207 | in a version of the right shape the first hit is the newest version at or below the sequence number of all files; in any version, what the probes of the deeper levels deliver if no level 0 file covers the key |
| Version.ShapeDistinct | xdb/src/db/version/version.cc:275-312 | in such a version no key has two versions with one sequence number |
| Manifest.KeepIs | xdb/src/db/version/version.cc:275-333 | what SaveTo keeps, and in which order |
| Manifest.Builder.Apply | xdb/src/db/version/version.cc:250-274 | one edit's deletions and additions |
| Manifest.SetPointersIs | xdb/src/db/version/version.cc:250-255 | the last setting of a compaction pointer decides, and a pointer that is not set stays |
| Manifest.Builder.SaveTo | xdb/src/db/version/version.cc:275-312 | the merged file lists, level by level |
| Manifest.ReplayLevel | xdb/src/db/version/version.cc:221-312 | one builder fed all edits gives what applying each in turn gives |
| Manifest.VersionSet.LogAndApply | xdb/src/db/version/version.cc:420-484 | a file is in a level afterwards exactly if it was there and is not deleted, or is added; the manifest still replays to the version |
| Manifest.VersionSet.Recover | xdb/src/db/version/version.cc:337-418 | files, pointers and counters that the manifest stands for |
| Manifest.LatestIs | xdb/src/db/version/version.cc:355-418 | a counter is that of the last record that has one |
| Manifest.SnapshotReplays | xdb/src/db/version/version.cc:486-510 | the snapshot replays to the version it was taken of |
| Manifest.Reopen | xdb/src/db/version/version.cc:337-510 | recovering from a valid version set's manifest succeeds; files, pointers and log number are restored, sequence and file counter as the last edit recorded them |
| EditCodec.EncodeTo | xdb/src/db/version/version_edit.cc:17-54 | the fields of an edit in their order |
| EditCodec.DecodeFrom | xdb/src/db/version/version_edit.cc:74-140 | the decoding loop, against its recursive definition, on every input |
| EditCodec.DecodeIs | xdb/src/db/version/version_edit.cc:74-140 | every 64-bit number comes back modulo 2^32, and from 2^35 on decoding is undefined |
| EditCodec.Rebuild | xdb/src/db/version/version_edit.cc:74-140 | the fields of an edit add up to the edit |
| EditCodec.EditRoundTripIff | xdb/src/db/version/version_edit.cc:17-140 | an edit decodes to itself exactly if all its numbers are below 2^32 |
| Pick.GetOverlappingFiles | xdb/src/db/version/version.cc:633-663 | terminates; on level 0 returns what overlaps the least closed range around the query, elsewhere what overlaps the query, in order |
| Pick.GetRange | xdb/src/db/version/version.cc:604-624 | as written, the innermost bounds; repaired, the hull |
| Pick.CoreIsHullIff | xdb/src/db/version/version.cc:604-624 | as written, the hull exactly if all files have the same bounds |
| Pick.NoBoundaries | xdb/src/db/version/version.cc:664-700 | the boundary search adds no file |
| Pick.SetUpInputs | xdb/src/db/version/version.cc:733-776 | on level 0 the files of the least closed range around the chosen file, elsewhere that file; with them the next level's files that meet their range; both grown exactly if that pays, keeps within the limit and leaves the second set as large |
| Pick.NeverGrows | xdb/src/db/version/version.cc:750-774 | as written, the first inputs never grow |
| Pick.HullInputsValid | xdb/src/db/version/version.cc:733-748 | with the hull, the inputs are what a compaction needs |
| Pick.CoreInputsValidIff | xdb/src/db/version/version.cc:733-748 | as written, exactly if no file of the next level meets the hull but not the innermost range |
| Pick.SingleInputValid | xdb/src/db/version/version.cc:733-748 | a single first input is right as written |
| Pick.CoreMissesInput | xdb/src/db/version/version.cc:604-624 | as written, a file of the next level between two first inputs is left out |
| Merging.MergeSorts | xdb/src/db/version/merge.cc:75-86 | the merge of sorted inputs is sorted |
| Merging.MergeConserves | xdb/src/db/version/merge.cc:75-86 | with every element as often as in the inputs |
| Merging.MergedIterator.FindSmallest | xdb/src/db/version/merge.cc:75-86 | the first child with the smallest key |
| Merging.MergedIterator.Next | xdb/src/db/version/merge.cc:34-38 | drops the first remaining element of the merge |
| Merging.MergedIterator.SeekToFirst | xdb/src/db/version/merge.cc:49-54 | the whole merge is still to come |
| Merging.MergedIterator.Seek | xdb/src/db/version/merge.cc:42-47 | still to come is the whole merge from its first element not below the key on |
| MergeInput.MakeMergedInput | xdb/src/db/version/version.cc:854-879 | the merged iterator delivers every input version of a compaction exactly once, in internal order |
| MergeInput.PickedInputs | xdb/src/db/version/version.cc:701-780 | the inputs chosen for a compaction can be merged: in order, and no file twice |
| Compaction.IsBaseLevelForKey | xdb/src/db/version/version.cc:906-917 | whether no file two or more levels down covers the key |
| Compaction.DoCompactionLevel | xdb/src/db/dbimpl.cc:597-661 | the outputs are not empty, carry exact bounds and hold the surviving versions in order; a file ends exactly where it is full or the check before an entry ends it |
| Compaction.SurviveIs | xdb/src/db/dbimpl.cc:612-632 | who survives: repaired, the newest version of each key; as written, all others; no deletion at the base level |
| Compaction.SurviveSorted | xdb/src/db/dbimpl.cc:612-632 | survivors stay sorted; repaired, no two share a user key |
| Edits.FlushShape | xdb/src/db/dbimpl.cc:742-763 | a flush keeps the shape and adds exactly the memtable's versions |
| Edits.MergeLevels | xdb/src/db/dbimpl.cc:726-740 | the files of each level after a merge is applied |
| Edits.MergeShape | xdb/src/db/dbimpl.cc:726-740 | replacing inputs by outputs that fit keeps the shape |
| Merge.RepairedReplaceable | xdb/src/db/dbimpl.cc:577-650 | the outputs of a repaired merge fit, also after flushes in the middle of it |
| Merge.MergeKeeps | xdb/src/db/dbimpl.cc:577-740 | a merge removes exactly the input versions that did not survive |
| Merge.OlderIsDeeper | xdb/src/db/version/version.cc:906-917 | whatever a dropped deletion could have hidden is seen by the base-level test |
| Merge.RepairedKeepsAnswers | xdb/src/db/dbimpl.cc:577-740 | a repaired merge changes no answer |
| Merge.LonePutDropped | xdb/src/db/dbimpl.cc:616-629 | as written, a merge over one live version loses it |
| Merge.OlderSurvives | xdb/src/db/dbimpl.cc:616-629 | as written, a merge of two versions of a key keeps the older one |
| Merge.AsWrittenKeepsIff | xdb/src/db/dbimpl.cc:616-629 | as written, a merge keeps the answer for a key exactly if a version above the inputs hides them or what lies below says the same |
| FaultyMerge.AsWrittenApartIff | xdb/src/db/dbimpl.cc:604-648 | as written, the outputs of a merge have disjoint key ranges wherever they are cut exactly if no user key has two survivors |
| FaultyMerge.AsWrittenKeepsAllIff | xdb/src/db/dbimpl.cc:616-629 | as written, a merge changes no answer exactly if that holds for each of its newest input versions |
| FaultyMerge.HarmlessReplaceable | xdb/src/db/dbimpl.cc:577-650 | under both rules, the outputs of a merge that does no harm fit in the place of its inputs |
| Lsm.LookupShows | xdb/src/db/dbimpl.cc:155-192 | memtable, immutable memtable and version, in this order, give the newest visible version |
| Lsm.LastOpDecides | xdb/src/db/dbimpl.cc:226-236 | what the plain map says: the last operation on a key decides |
| LsmSteps.StepKeeps | xdb/src/db/dbimpl.cc:304-345 | every step of the store keeps its invariant, but for harmful merges |
| LsmSteps.FlushKeeps | xdb/src/db/dbimpl.cc:742-763 | a flush, also in the middle of a merge, keeps the invariant |
| LsmSteps.MoveKeeps | xdb/src/db/dbimpl.cc:687-701 | a single-file move keeps the invariant |
| LsmSteps.FinishMergeKeeps | xdb/src/db/dbimpl.cc:577-659 | a merge that does no harm keeps the invariant |
| LsmSteps.MapShownIff | xdb/src/db/dbimpl.cc:577-659 | as written, the store still shows the map after a merge exactly if the merge leaves each of its newest input versions unaffected |
| LsmSteps.FinishMergeKeepsIff | xdb/src/db/dbimpl.cc:577-659 | as written, a merge keeps the invariant exactly if its outputs are apart and it leaves each of its newest input versions unaffected |
| LsmSteps.InvAlongIff | xdb/src/db/dbimpl.cc:577-763 | a run keeps the invariant all the way exactly if no merge in it does harm |
| LsmSteps.RepairedIsHarmless | xdb/src/db/dbimpl.cc:616-629 | repaired, no merge does harm |
| LostWrite.MergeLosesPut | xdb/src/db/dbimpl.cc:616-629 | as written, a run of the store after which a lookup finds nothing although the map has a value |
| MissedInput.ReadLosesPut | xdb/src/db/version/version.cc:604-624 | with the ranges as written, a run of the store and a merge that drops nothing, after which a lookup misses a key that the map has |
| MissedInput.MergeHidesFile | xdb/src/db/version/version.cc:733-748 | that happens for every choice of inputs that the code may make there |
| MissedInput.NextLevelSortedIff | xdb/src/db/version/version.cc:733-748 | for inputs chosen with either range, the next level is sorted after the merge exactly if no file left there meets an output |
| LsmSteps.BatchShows | xdb/src/db/dbimpl.cc:258-285 | a whole batch becomes visible at once, in the order of its operations |
| LsmSteps.ReadsLikeMap | xdb/src/db/dbimpl.cc:155-192 | after every run without harmful merges, under either rule, a lookup at the last sequence number gives the plain map's answer |
| LsmSteps.ReadsAreSnapshots | xdb/src/db/dbimpl.cc:155-192 | a read ends with the map's answer at its start, whatever happens between its two lock sections |
| GroupCommit.GroupIsMaximal | xdb/src/db/dbimpl.cc:121-149 | the group is the longest prefix of the queue without an unasked sync and within the limit: 1 KiB above a first batch of at most 1 KiB, 1 MiB otherwise |
| GroupCommit.MergeBatchGroup | xdb/src/db/dbimpl.cc:114-153 | the merged batch and the length of the group, for both rules; the scratch batch is used exactly if a follower has a batch |
| GroupCommit.RepairedJoins | xdb/src/db/dbimpl.cc:143-149 | repaired, the merged batch is the concatenation of the group's batches |
| GroupCommit.AsWrittenSafeIff | xdb/src/db/dbimpl.cc:133-151 | as written, a group is merged correctly whatever its batches hold exactly if no follower in it has a batch |
| GroupCommit.AsWrittenJoinsIff | xdb/src/db/dbimpl.cc:143-149 | for given batches, exactly if the followers' operations are those of the leader, once for each follower with a batch |
| GroupCommit.FollowerLost | xdb/src/db/dbimpl.cc:143-149 | two writers of which the second one's operation is lost |
| Writers.StepKeeps | xdb/src/db/dbimpl.cc:238-302 | every step of every thread keeps the protocol's invariant |
| Writers.OneWriter | xdb/src/db/dbimpl.cc:238-302 | at most one thread is past the queue, and nobody rotates the memtable while one writes |
| Writers.AnsweredInOrder | xdb/src/db/dbimpl.cc:286-296 | writers are answered in order of arrival, each once; the others are the queue |
| Writers.RangesApart | xdb/src/db/dbimpl.cc:257-284 | merged batches get disjoint, increasing ranges of sequence numbers |
| Writers.InsertsApart | xdb/src/db/dbimpl.cc:257-284 | no sequence number enters the memtables twice, and later insertions have larger ones |
| Writers.InsertsAreLogged | xdb/src/db/dbimpl.cc:264-277 | what enters a memtable is in the log, under the same numbers |
| Writers.SuccessIsInserted | xdb/src/db/dbimpl.cc:257-296 | a successful group is in the log, and once in the memtable that was current when its leader began, under the numbers of its log record |
| Writers.LeaderWrites | xdb/src/db/dbimpl.cc:254-296 | whatever other threads do meanwhile, a leader logs, inserts and answers for the group it found, numbered from the last number of then on, into the memtable of then |
| Writers.StatusIsReported | xdb/src/db/dbimpl.cc:266-296 | a writer is told of success exactly if the log and the memtable took the batch, and its group with it |
| Writers.MemsCountRotations | xdb/src/db/dbimpl.cc:304-345 | every rotation makes a new memtable, and nothing else does |
| Writers.NothingLost | xdb/src/db/dbimpl.cc:114-153 | repaired, what is written for the answered writers is what they asked for, in order |
| Writers.SuccessIsLogged | xdb/src/db/dbimpl.cc:260-296 | repaired, a writer told of success has its batch whole in one log record |
| Writers.LoneRunsAgree | xdb/src/db/dbimpl.cc:114-153 | as written, a run in which no leader takes along a follower with a batch is a run of the repaired code |
| Writers.LoneRunsLoseNothing | xdb/src/db/dbimpl.cc:114-153 | so in such a run, what is written for the answered writers is what they asked for, in order |
| Writers.SuccessButLost | xdb/src/db/dbimpl.cc:143-149 | as written, a run in which a writer told of success has its batch nowhere |
| Background.StepKeeps | xdb/src/db/dbimpl.cc:544-576 | one job at most; an immutable memtable or a full level 0 has one; a sleeping writer's reason still holds |
| Background.WaiterHasJob | xdb/src/db/dbimpl.cc:304-345 | in every run a sleeping writer has a job in flight |
| Background.WaitersHaveJobsIff | xdb/src/db/dbimpl.cc:194-224 | so it is exactly if the store is opened with fewer level 0 files than stop writers |
| Background.WorkHasJobIff | xdb/src/db/dbimpl.cc:544-576 | an immutable memtable, four files in level 0 or another reason to compact has a job in every run, exactly if there was none of them at open |
| Background.WorkHasJobAfter | xdb/src/db/dbimpl.cc:544-576 | and in every run from the first rotation, or the first read that finds a file to compact, on |
| Background.JobsHaveReasons | xdb/src/db/dbimpl.cc:544-558 | no job is waiting to begin without such a reason |
| Background.ErrorIsFinal | xdb/src/db/dbimpl.cc:765-772 | after a background error no job is scheduled and no writer sleeps, in every run |
| Garbage.StepKeeps | xdb/src/db/dbimpl.cc:774-827 | reference counts count holders, and what is needed is on disk, after every step |
| Garbage.CleanKeeps | xdb/src/db/dbimpl.cc:774-827 | collection removes no table of a listed version or being written, no log behind a memtable, and not the manifest |
| Garbage.AppendRefs | xdb/src/db/version/version.cc:512-526 | a new current version: one holder less for the old one, one for the new one |
| Garbage.NothingNeededIsRemoved | xdb/src/db/dbimpl.cc:774-827 | over every run, everything readers, the current version, a merge, a flush and the memtables need is there |
| Garbage.NothingElseStays | xdb/src/db/dbimpl.cc:774-827 | a flush or merge that succeeds leaves no table that nobody holds, no log from before the store was opened and no older manifest |
| Garbage.SessionLogsStay | xdb/src/db/dbimpl.cc:333-341 | a log made since then stays as long as the store is open |
| Garbage.PendingWouldGo | xdb/src/db/dbimpl.cc:517-543 | between building a table and committing it a collection would remove it: one background job is essential |
| HandleTable.HandleTable.Find | xdb/src/util/cache.cc:92-98 | the first match in the chain of the hash, or its end |
| HandleTable.HandleTable.Insert | xdb/src/util/cache.cc:40-52 | the table with the handle in the place of one with the same key, which is returned |
| HandleTable.HandleTable.Remove | xdb/src/util/cache.cc:54-62 | the table without the key |
| HandleTable.HandleTable.Resize | xdb/src/util/cache.cc:64-90 | the same handles in a table with at least as many chains |
| HandleTable.AtMostOne | xdb/src/util/cache.cc:36-62 | a key and hash name at most one handle |
| Cache.LRUCache.Ref | xdb/src/util/cache.cc:214-220 | pinning takes a handle from the victims to those in use |
| Cache.LRUCache.Unref | xdb/src/util/cache.cc:222-232 | the last reference frees, the last but the cache's own unpins |
| Cache.LRUCache.FinishErase | xdb/src/util/cache.cc:234-242 | the cache gives up its reference and the charge |
| Cache.LRUCache.Lookup | xdb/src/util/cache.cc:150-157 | a hit is pinned, a miss means there is no such handle; nothing else moves |
| Cache.LRUCache.Insert | xdb/src/util/cache.cc:159-190 | the handle is cached and pinned in the place of one with the same key; the coldest victims go, each while the usage was above the capacity, and everything else stays |
| Cache.LRUCache.Evict | xdb/src/util/cache.cc:183-187 | victims go from the cold end, and no more than needed |
| Cache.LRUCache.Release | xdb/src/util/cache.cc:192-195 | one reference less; the last one frees the handle, and the last but the cache's own makes it the latest victim |
| Cache.LRUCache.Erase | xdb/src/util/cache.cc:197-200 | exactly the handle with the key leaves the cache, and is freed unless somebody holds it |
| Cache.LRUCache.Accounts | xdb/src/util/cache.cc:139-242 | table, cached mark, lists and reference counts agree for every handle |
| Cache.LRUCache.AllPinned | xdb/src/util/cache.cc:159-190 | without victims, everything cached is held by somebody |
| Cache.LRUCache.FreedOnce | xdb/src/util/cache.cc:222-232 | no handle is freed twice |
| HandleList.List.Append | xdb/src/util/cache.cc:202-207 | the circular list with the link at its end |
| HandleList.List.Remove | xdb/src/util/cache.cc:209-212 | the circular list without the link |
| HandleList.List.First | xdb/src/util/cache.cc:183-184 | the next victim is the first link |

## Left out

- Files, memory maps, locks and threads: a file is a byte sequence, and the lock is what separates steps.
- I/O errors, except for a failed log append or sync, a failed flush and a failed merge.
- Snappy, CRC32C and MurmurHash3: any compressor that is undone by its decompressor, any byte-wise checksum, any hash function.
- Memory ordering of the atomics: steps happen one after the other, and readers in the middle of an insertion are not modelled.
- Custom comparators: the bytewise one is modelled, and any total order where a module takes a comparator.
- Which level is compacted and when (scores, seek counts, sizes) is left open; compactions of the last level are not modelled.
- `LevelFileIterator::Seek`, which takes an internal key for a user key and is not used; iterators over the whole store.
- File names, the logger, option handling, `DestoryDB`, sharding of the cache, the cache's destructor and the table cache built on it.
- Integer overflow in size arithmetic (bits of a filter, group sizes); the floating-point choice of probe counts.
- One open of the store: recovery of the log and of the manifest are modelled on their own, not as steps of a run.
- LsmSteps.ReadsLikeMap: runs in which a merge does harm under the drop rule as written are excluded, because the statement is false for them; LsmSteps.FinishMergeKeepsIff says exactly which merges do.
- Cache.LRUCache.Insert: the lists of handles are sequences here; that the linked lists behave as sequences is proved on its own (`HandleList`).
- Merging.MergedIterator.Next: the children are sequences with a position, as the block and table iterators are proved to be.
- WriteBatch.InsertMemTable: assumes that the sequence numbers fit into 56 bits and every key, with its 8-byte trailer, into a 32-bit length; beyond that the source writes broken records.
- Lsm: a flush takes its file number when it commits, not when it starts; only one flush runs at a time, so the order of level 0 is the same.
- GroupCommit.MergeBatchGroup: assumes that the merged operations can be counted in 32 bits.
- Background.WaiterHasJob: a destructor that runs while a writer waits is the caller's error and not covered.
