# LevelDB and nanopb, modelled and verified

The app GoodThing carries two storage libraries among its Pods: LevelDB, a log-structured merge
tree with snapshots, and nanopb, a descriptor-driven codec for Protocol Buffers.  This project
models the core of both and proves what they are for.  `dafny verify dfyconfig.toml` checks all of
it.

Objects whose methods update fields are classes here, loops are loops, and each method is proved
against a function or a predicate about which the lemmas speak.

## What is modelled

The specification of the database is a set of entries, each a user key, a sequence number and a put
or a deletion; a read at a snapshot returns the newest entry the snapshot can see (`Entries`).
Everything else is a fast form of that, or a way to keep it across crashes.  A user key is a number
there, since only its place in the order matters; `UserKeys.Number` is the place of a byte string in
the bytewise order, and `UserKeys.NumberKeepsOrder` proves that it is one, for all byte strings.

| part | modules |
|---|---|
| keys as bytes and as values, versions, reads and file search | `Entries`, `UserKeys`, `Versions` |
| choosing the inputs of a compaction, version edits, the compaction loop and where it cuts its outputs, level invariants | `Inputs`, `Builders`, `VersionSets`, `OutputCuts`, `Compactions`, `Invariants`, `CompactionReads` |
| the database: memtables, snapshots, flushes, moves and compactions together | `Databases` |
| the writer queue with group commit, every interleaving | `GroupCommit` |
| log files: writer, reader, cuts, damage, reports of damage, replay, durability | `Logs`, `LogRecovery`, `LogDamage`, `LogReports`, `Recovery`, `Corruptions`, `DurableLogs`, `TornLogs` |
| write batches, fixed and varint coding, CRC32C | `WriteBatches`, `Coding`, `Crc32c`, `Checksums` |
| the manifest, from version edits in bytes to recovered versions | `VersionEdits`, `EditRefusals`, `Manifests`, `Descriptors` |
| iterators | `DbIterators`, `MergingIterators`, `TwoLevelIterators`, `TableCursors` |
| the skip list, searches during insertions, the memtable on top of it | `SkipLists`, `SkipListSearches`, `MemTables` |
| the cache with its hash table, and the order of its evictions | `HandleTables`, `LruCaches`, `LruOrder` |
| table files: blocks, separators, Bloom filters, filter blocks, builder, reader | `Blocks`, `Comparators`, `BloomFilters`, `FilterBlocks`, `TableFormats`, `Tables`, `TableFiles`, `TableBuilders`, `TableReaders`, `TableGets`, `BuildTables` |
| nanopb: messages and descriptors, encoder, decoder, both through streams; what is refused, and readers of other versions | `Messages`, `ProtoEncode`, `ProtoDecode`, `ProtoStreams`, `ProtoRoundTrip`, `ProtoExchange`, `ProtoRefusals`, `ProtoVersions` |
| options, sequences, bit operations | `Wrappers`, `Bits` |

The byte formats and the abstract entries meet in five places: `MemTables.MemTable` (a memtable's
bytes give what `Databases` reads in a memtable), `TableGets.Get` (a lookup in the bytes of a table
is the lookup that `Versions.Get` makes in a file; by `TableGets.TableIsFile` every table is such a
file), `TableCursors.TableCursor` (a table's bytes under the contract of
`DbIterators.InternalIterator`, which is what `MergingIterators` asks of its children),
`DurableLogs` with `TornLogs` (the groups of `GroupCommit` as bytes of log files) and `Descriptors`
(the edits of `VersionSets` as bytes of a manifest; by `Descriptors.EveryVersionIsStorable` every
version can be stored, and `Descriptors.TwoKeysWriter` shows one).  The hash of a Bloom filter, the
sizes of files, the heights of skip-list nodes and the level and file that a compaction starts from
are parameters.

## Properties the code fails, and when

- A compaction may bring a deleted key back.  The inputs of level L are closed under boundary
  files, those of level L+1 are not, and a deletion marker is dropped when no deeper file covers
  its key.  `CompactionReads.CompactionPreservesReads`: reads at or above the smallest snapshot are
  unchanged if and only if no dropped marker exposes an untouched put.
  `CompactionReads.UnsplitCompactionPreservesReads`: that holds whenever no chosen file of level
  L+1 ends with the user key an unchosen one starts with, which can be checked before the merge.
  `CompactionReads.CompactionCanResurrectADeletedKey` is a failing input.
- A synced write that was told Ok may be lost.  An append that fails behind a header leaves that
  header in the log, and only a failed sync stops later writes.
  `DurableLogs.SyncedWriteSurvives`: a synced write is recovered whole from wherever the crash cut
  its file, if no append to that file was torn before it.  `TornLogs.HiddenIsLost`: it is not
  recovered from any cut if the first torn record of the file was cut behind a header and all that
  follows in the file is less than what is missing of that payload.
  `TornLogs.SyncedWriteSurvivesIffIntact` joins the two.  `DurableLogs.TornAppendLosesSyncedWrite`
  is a failing run.  Undecided are records torn within a header or between two fragments, and those
  followed by enough bytes to fill the payload, where what the reader makes of it hangs on the
  bytes and their checksums.
- A string that fills its buffer is encoded and then refused by the decoder, which wants room for
  the NUL.  `ProtoRoundTrip.RoundTrip`: an encodable message is decoded if and only if every
  string in it leaves that room.  `ProtoExchange.FullStringIsRefused` is a failing input.
- A version edit that is decoded into twice keeps the compaction pointers of the first time.
  `VersionEdits.RoundTrip`: the very same edit comes back if and only if the one decoded into held
  none, as those of recovery do.
- A message as it is by default may still take bytes: a fixed-length byte string is sent even when all its bytes
  are zero.  `ProtoVersions.DefaultsTakeNoBytes`: a default message is empty on the wire if and only if no field
  is required and, among those without a has_ flag, there is neither such a string nor a message that is
  always sent.
- A key or a length of more than 32 bits is not always refused: bits beyond the 32nd are only checked to
  repeat the sign, group by group.  `ProtoRefusals.Varint32OfAny` says of every 64-bit number what is read of it.
- A batch key or value of 2^32 bytes or more is not read back, nor is any other length-prefixed
  string: `Coding.LengthPrefixedRoundTrip`, in both directions.

## Model

| member | source | states |
|---|---|---|
| Entries.PackedOrder | GoodThing/Pods/leveldb-library/db/dbformat.cc:51-67 | comparing user keys and then sequence numbers and types is comparing user keys and then packed tags, descending |
| Entries.NewestInUnion | GoodThing/Pods/leveldb-library/db/version_set.cc:326-421 | of two layers of which the first is newer, the first layer that holds a visible entry decides a read |
| Versions.FirstAtOrAfterIsNewest | GoodThing/Pods/leveldb-library/db/dbformat.h:59-62 | seeking to (user key, snapshot, seek type) in sorted entries lands on the newest visible entry of the key, if the key has one |
| Versions.FindFile | GoodThing/Pods/leveldb-library/db/version_set.cc:88-106 | in a sorted disjoint level, the least index whose file does not end before the key: every earlier file ends before it, no later one does |
| Versions.SomeFileOverlapsRange | GoodThing/Pods/leveldb-library/db/version_set.cc:122-157 | true if and only if some file meets the range, by linear search of overlapping files and by binary search of disjoint ones |
| Versions.OverlappingNewestFirst | GoodThing/Pods/leveldb-library/db/version_set.cc:282-299 | exactly the level-0 files whose range holds the key, newest first |
| Versions.SearchLevelZero | GoodThing/Pods/leveldb-library/db/version_set.cc:326-390 | level 0, searched newest file first, gives the newest visible entry of the level |
| Versions.SearchDisjointLevel | GoodThing/Pods/leveldb-library/db/version_set.cc:326-420 | a deeper level gives its newest visible entry although one file is looked at |
| Versions.Get | GoodThing/Pods/leveldb-library/db/version_set.cc:326-421 | on a well-formed version, the newest entry visible at the snapshot over all files of all levels, or none if and only if there is none |
| Inputs.GetOverlappingInputs | GoodThing/Pods/leveldb-library/db/version_set.cc:519-559 | exactly the files that meet the range reached; at level 0 that range is the least one that extends the range asked for and that no chosen file sticks out of |
| Inputs.GetRange | GoodThing/Pods/leveldb-library/db/version_set.cc:1205-1224 | the smallest and the largest key over all the inputs |
| Inputs.FindSmallestBoundaryFile | GoodThing/Pods/leveldb-library/db/version_set.cc:1344-1362 | of the files that start with the user key the chosen ones end with, and after them, the one with the smallest key; none if and only if there is none |
| Inputs.AddBoundaryInputs | GoodThing/Pods/leveldb-library/db/version_set.cc:1378-1401 | the chosen files and, one after the other, the boundary files that follow the largest key so far, until none does; a run of a disjoint level stays a run |
| VersionSets.BoundaryClosureLeavesOnlyNewer | GoodThing/Pods/leveldb-library/db/version_set.cc:1364-1374 | once closed under boundary files, what is chosen from a level leaves only newer entries of its user keys behind |
| VersionSets.OverlapFilterIsRun | GoodThing/Pods/leveldb-library/db/version_set.cc:519-559 | in a disjoint level the files that meet a range are consecutive |
| VersionSets.LimitInputs | GoodThing/Pods/leveldb-library/db/version_set.cc:1472-1487 | the shortest front of the files that reaches the limit, or all of them if none does |
| VersionSets.VersionSet.PickCompaction | GoodThing/Pods/leveldb-library/db/version_set.cc:1270-1322 | from the file that was picked, at level 0 with every file its range reaches: exactly the inputs, parents and grandparents that these lead to, with the limits of the compaction; what is left behind in the level is newer than what is taken of its user keys; the next pick starts behind the inputs |
| VersionSets.VersionSet.CompactRange | GoodThing/Pods/leveldb-library/db/version_set.cc:1464-1495 | no compaction if and only if nothing meets the range; otherwise exactly the inputs, parents and grandparents that the files of the range, as far as the limit lets them in, lead to; at level 0 every file of the range is in |
| VersionSets.VersionSet.SetupOtherInputs | GoodThing/Pods/leveldb-library/db/version_set.cc:1403-1462 | the choice is closed under boundary files, its parents are found, and the wider choice is taken exactly if it is wider, brings in no more parents and stays below the limit; the grandparents are exactly the files two levels down that the range of all inputs meets, in order; the pointer for the next compaction is the largest input key |
| VersionSets.ChooseInputs | GoodThing/Pods/leveldb-library/db/version_set.cc:1403-1447 | the inputs so chosen are a good compaction that contains the choice |
| VersionSets.FindGrandparents | GoodThing/Pods/leveldb-library/db/version_set.cc:1449-1454 | exactly the files of the level that meet some user key between the first and the last of the inputs, in the order of the level |
| VersionSets.TryToGrow | GoodThing/Pods/leveldb-library/db/version_set.cc:1417-1447 | the wider choice is taken exactly if it is wider, the parents and it stay below the limit together, and it brings in no more parents; otherwise nothing changes; either way the inputs stay good |
| VersionSets.Compaction.IsBaseLevelForKey | GoodThing/Pods/leveldb-library/db/version_set.cc:1533-1552 | with cursors that only move forward: true if and only if no file at any deeper level covers the key |
| VersionSets.Compaction.ShouldStopBefore | GoodThing/Pods/leveldb-library/db/version_set.cc:1554-1576 | the cursor passes exactly the grandparents that end before the key; the output is stopped if and only if what was passed since the last stop, the first key apart, is over the limit |
| VersionSets.Compaction.AddInputDeletions | GoodThing/Pods/leveldb-library/db/version_set.cc:1525-1531 | the edit deletes exactly the inputs, at their own levels |
| VersionSets.PickLevelForMemTableOutput | GoodThing/Pods/leveldb-library/db/version_set.cc:491-516 | the table sinks level by level as long as no file of the next level meets its range and few enough bytes of the one after do; it stops exactly where one of these fails, or at level 2 |
| Builders.AccumulationIsReplay | GoodThing/Pods/leveldb-library/db/version_set.cc:590-754 | accumulating additions and deletions once gives the files that installing the edits one by one gives, when no level and number pair is added twice |
| Builders.SortedListingIsUnique | GoodThing/Pods/leveldb-library/db/version_set.cc:590-607 | a level has only one listing in order of smallest key |
| Builders.Builder.Apply | GoodThing/Pods/leveldb-library/db/version_set.cc:650-692 | marks deletions, then adds the new files and takes back their deletion marks; the edit joins those applied |
| Builders.MergeLevel | GoodThing/Pods/leveldb-library/db/version_set.cc:695-740 | merging base and added files gives, in order, exactly those that are not deleted |
| Builders.Builder.SaveTo | GoodThing/Pods/leveldb-library/db/version_set.cc:695-739 | every level holds, in order, exactly the files that replaying the applied edits leaves |
| Builders.ApplyEdit | GoodThing/Pods/leveldb-library/db/version_set.cc:816-821 | one edit applied to one version: the deleted files go, the new files come, level by level, in order |
| VersionSets.VersionSet.LogAndApply | GoodThing/Pods/leveldb-library/db/version_set.cc:801-884 | the current version becomes the one the edit makes of it |
| Compactions.HiddenByPredecessor | GoodThing/Pods/leveldb-library/db/db_impl.cc:937-948 | in merged order an entry is hidden from all snapshots exactly when the entry just before it has the same user key and is old enough |
| Compactions.KeptOfUser | GoodThing/Pods/leveldb-library/db/db_impl.cc:937-963 | of a user key, every entry newer than the smallest snapshot is kept; of the others only the newest, and that not if it is a deletion marker and no file two or more levels below may hold the key |
| Compactions.ShouldDrop | GoodThing/Pods/leveldb-library/db/db_impl.cc:930-963 | an entry is dropped if and only if it is hidden, or is a deletion marker old enough with no deeper file covering its key |
| Compactions.DoCompactionWork | GoodThing/Pods/leveldb-library/db/db_impl.cc:878-1036 | the outputs are valid disjoint sorted files, numbered in order, that together hold exactly the entries to be kept; none goes on after it is full, each lies on one side of every stop, and each but the last is full or a stop follows it |
| Compactions.AddToOutput | GoodThing/Pods/leveldb-library/db/db_impl.cc:974-995 | an entry that is kept joins the output being built, which ends with it if and only if it is full now |
| OutputCuts.StopBefore | GoodThing/Pods/leveldb-library/db/version_set.cc:1554-1576 | the stops: each is the first key to which, from the stop before, more grandparent bytes have passed than the limit; the answer is yes before exactly these |
| Invariants.CompactionEditReplaces | GoodThing/Pods/leveldb-library/db/db_impl.cc:860-876 | the compaction edit takes the inputs out of their levels and puts the outputs into the next, and touches nothing else |
| Invariants.CompactionKeepsWellFormed | GoodThing/Pods/leveldb-library/db/db_impl.cc:860-876 | installing the outputs of a good compaction keeps the version well-formed |
| Invariants.FlushKeepsWellFormed | GoodThing/Pods/leveldb-library/db/db_impl.cc:491-533 | so does adding a flushed memtable at the level it was pushed to |
| CompactionReads.CompactionPreservesReads | GoodThing/Pods/leveldb-library/db/db_impl.cc:930-963 | every read at or above the smallest snapshot is unchanged if and only if no dropped marker exposes an untouched put; exposure implies that a chosen level-(L+1) file ends with the user key an unchosen one starts with |
| CompactionReads.UnsplitCompactionPreservesReads | GoodThing/Pods/leveldb-library/db/db_impl.cc:930-963 | with no such file pair, which can be checked before the merge, every read at or above the smallest snapshot is unchanged |
| CompactionReads.CompactionCanResurrectADeletedKey | GoodThing/Pods/leveldb-library/db/db_impl.cc:949-960 | a well-formed version, good inputs and the version installed for them, in which a deleted key reads as its old value again |
| Databases.InsertEntryKeepsSorted | GoodThing/Pods/leveldb-library/db/memtable.cc:75-98 | adding a newer entry keeps the memtable sorted and adds nothing else |
| Databases.MemTableGet | GoodThing/Pods/leveldb-library/db/memtable.cc:100-134 | the newest entry of the memtable visible at the snapshot |
| MemTables.PlacesCompare | GoodThing/Pods/leveldb-library/db/memtable.cc:28-34 | comparing entries by their length-prefixed internal keys is comparing user keys, then sequence numbers and types, descending |
| MemTables.RecordReadBack | GoodThing/Pods/leveldb-library/db/memtable.cc:14-19 | an entry's bytes give back its internal key and its value |
| MemTables.MemTable.Add | GoodThing/Pods/leveldb-library/db/memtable.cc:75-98 | an entry of a new sequence number goes as bytes into its place in the skip list; the memtable holds one entry more and no other change |
| MemTables.MemTable.Get | GoodThing/Pods/leveldb-library/db/memtable.cc:100-134 | from the bytes: what the newest entry of the user key visible at the snapshot says, or not found if and only if there is none |
| Databases.DBImpl.Write | GoodThing/Pods/leveldb-library/db/db_impl.cc:1200-1237 | a group takes the next sequence numbers in order; reads agree with the history of all writes as before |
| Databases.DBImpl.Get | GoodThing/Pods/leveldb-library/db/db_impl.cc:1100-1145 | memtable, immutable memtable and version together give what the history of all writes gives, for every snapshot no compaction has overtaken |
| Databases.DBImpl.SmallestSnapshot | GoodThing/Pods/leveldb-library/db/db_impl.cc:890-894 | the oldest live snapshot, or the last sequence number if there is none; no live snapshot is below it |
| Databases.DBImpl.GetSnapshot | GoodThing/Pods/leveldb-library/db/db_impl.cc:1166-1169 | a snapshot is the last sequence number and keeps the list in order |
| Databases.DBImpl.ReleaseSnapshot | GoodThing/Pods/leveldb-library/db/db_impl.cc:1171-1174 | exactly that snapshot leaves the list |
| Databases.DBImpl.SwitchMemTable | GoodThing/Pods/leveldb-library/db/db_impl.cc:1345-1366 | the full memtable becomes the immutable one; nothing that is stored changes |
| Databases.DBImpl.CompactMemTable | GoodThing/Pods/leveldb-library/db/db_impl.cc:535-566 | flushing keeps the invariant and stores exactly what was stored; the entries are now a table at exactly the level the table sinks to, and an empty memtable changes nothing |
| Databases.WriteLevel0Table | GoodThing/Pods/leveldb-library/db/db_impl.cc:491-533 | the table takes the next file number and goes to the level it sinks to; every layer stays newer than those below |
| Databases.DBImpl.RunTrivialMove | GoodThing/Pods/leveldb-library/db/db_impl.cc:718-728 | the file goes from its level to the next and nothing else changes in any level; what is stored stays the same, the invariant holds, and the file meets at most ten times the file size of bytes of the level after |
| Databases.DBImpl.RunCompaction | GoodThing/Pods/leveldb-library/db/db_impl.cc:734-743 | the inputs give way to outputs that hold exactly what is to be kept, cut where the loop cuts them; the invariant is kept, and reads at or above the smallest snapshot are unchanged if and only if nothing is exposed |
| VersionEdits.VersionEdit.EncodeTo | GoodThing/Pods/leveldb-library/db/version_edit.cc:41-85 | appends the fields that are set, then pointers, deletions in order, additions, each with its tag |
| VersionEdits.VersionEdit.DecodeFrom | GoodThing/Pods/leveldb-library/db/version_edit.cc:107-205 | reads fields in any order, refuses unknown tags, bad levels and trailing bytes, and forgets first everything but the compaction pointers |
| VersionEdits.VersionEdit.Clear | GoodThing/Pods/leveldb-library/db/version_edit.cc:26-39 | everything is forgotten but the compaction pointers |
| VersionEdits.DecodeEncode | GoodThing/Pods/leveldb-library/db/version_edit.cc:41-205 | decoding an encoded edit gives it back, after the pointers the edit decoded into held before |
| VersionEdits.RoundTrip | GoodThing/Pods/leveldb-library/db/version_edit.cc:107-205 | for every edit in range the very same edit comes back if and only if the one decoded into held no pointers |
| EditRefusals.UnknownTagIsRefused | GoodThing/Pods/leveldb-library/db/version_edit.cc:190-202 | a field with a tag there is not makes the edit unreadable |
| EditRefusals.WrongLevelIsRefused | GoodThing/Pods/leveldb-library/db/version_edit.cc:97-105 | so does a level of seven or more |
| EditRefusals.CutField | GoodThing/Pods/leveldb-library/db/version_edit.cc:107-205 | so does a field cut short, wherever the cut is |
| EditRefusals.CutEditIsRefused | GoodThing/Pods/leveldb-library/db/version_edit.cc:107-205 | a front of an encoded edit is read if and only if it ends with one of the fields |
| Manifests.InstallingIsReplay | GoodThing/Pods/leveldb-library/db/version_set.cc:801-884 | installing edits one after another is replaying them, level by level |
| Manifests.RecoveredIsInstalled | GoodThing/Pods/leveldb-library/db/version_set.cc:886-1011 | a version that lists what replaying the edits leaves is the version that was installed last |
| Manifests.ReplayAfterSnapshot | GoodThing/Pods/leveldb-library/db/version_set.cc:1088-1116 | replaying a snapshot and then edits from nothing is replaying the edits from the version the snapshot was taken of |
| Descriptors.SnapshotOf | GoodThing/Pods/leveldb-library/db/version_set.cc:1088-1116 | the snapshot edit has the comparator name, no numbers, and exactly the files of the version |
| Descriptors.ManifestWriter.LogAndApply | GoodThing/Pods/leveldb-library/db/version_set.cc:801-884 | the new version and numbers are installed if and only if snapshot, record, sync and CURRENT all succeed; then the manifest holds one record more, and a first one after the snapshot |
| Descriptors.Recover | GoodThing/Pods/leveldb-library/db/version_set.cc:916-1007 | from the bytes of a manifest: the first failure in the order the code meets it, or the version that replaying all records from nothing gives, with the log, previous log, next-file and last-sequence numbers of the last record that has them |
| Descriptors.CorruptManifestIsRefused | GoodThing/Pods/leveldb-library/db/version_set.cc:926-969 | for all bytes: every edit is read if and only if nothing is reported corrupt and every record is an edit of a database with this comparator; a corruption is what is told if nothing else is wrong |
| Descriptors.NumbersAreLast | GoodThing/Pods/leveldb-library/db/version_set.cc:949-967 | each number is that of the last edit that has one, and missing if none has |
| Descriptors.MissingNumberIsRefused | GoodThing/Pods/leveldb-library/db/version_set.cc:973-980 | if all edits are read, recovery fails exactly when none has a next file number, or none a log number, or none a last sequence number |
| Descriptors.EveryVersionIsStorable | GoodThing/Pods/leveldb-library/db/version_set.cc:1088-1116 | whatever byte strings bound its files, a version can be written to a manifest and read back, as long as a file number stands for one table |
| Descriptors.EditsReadBack | GoodThing/Pods/leveldb-library/db/version_set.cc:929-968 | the edits of a log of encoded edits are those edits |
| Descriptors.PrefixIsRead | GoodThing/Pods/leveldb-library/db/version_set.cc:926-969 | whatever byte a manifest was cut at, exactly the edits of its whole records are read, and nothing is found corrupt |
| Descriptors.RecoveryIsState | GoodThing/Pods/leveldb-library/db/version_set.cc:886-1011 | recovering from any prefix gives the version and the numbers of the last whole record; a prefix without a second record is refused for want of a next-file number |
| Descriptors.RecoverManifest | GoodThing/Pods/leveldb-library/db/version_set.cc:886-1011 | running recovery on such a prefix does exactly that |
| Descriptors.ManifestWriter.CrashRecovery | GoodThing/Pods/leveldb-library/db/version_set.cc:886-1011 | for any sequence of LogAndApply calls and any cut; from the uncut manifest, the current version and log numbers of the version set itself |
| DbIterators.YieldsAreReads | GoodThing/Pods/leveldb-library/db/db_iter.cc:141-299 | the entries an iterator yields are exactly the live user keys at the snapshot, once each, in order, with the values that reads return |
| DbIterators.DBIter.Seek | GoodThing/Pods/leveldb-library/db/db_iter.cc:269-281 | the first yielded entry at or after the target, or the end if there is none |
| DbIterators.DBIter.SeekToFirst | GoodThing/Pods/leveldb-library/db/db_iter.cc:283-292 | the first yielded entry |
| DbIterators.DBIter.SeekToLast | GoodThing/Pods/leveldb-library/db/db_iter.cc:294-299 | the last yielded entry |
| DbIterators.DBIter.Next | GoodThing/Pods/leveldb-library/db/db_iter.cc:141-166 | the next yielded entry, in whichever direction the iterator moved before |
| DbIterators.DBIter.Prev | GoodThing/Pods/leveldb-library/db/db_iter.cc:200-225 | the previous yielded entry, in whichever direction the iterator moved before |
| MergingIterators.MergeHasRanks | GoodThing/Pods/leveldb-library/table/merger.cc:14-28 | sorted lists without common entries have one merged order, and places in it |
| MergingIterators.MergingIterator.Seek | GoodThing/Pods/leveldb-library/table/merger.cc:47-53 | stands at the first merged entry at or after the target |
| MergingIterators.MergingIterator.SeekToFirst | GoodThing/Pods/leveldb-library/table/merger.cc:31-37 | stands at the first merged entry |
| MergingIterators.MergingIterator.SeekToLast | GoodThing/Pods/leveldb-library/table/merger.cc:39-45 | stands at the last merged entry |
| MergingIterators.MergingIterator.Next | GoodThing/Pods/leveldb-library/table/merger.cc:55-79 | steps to the next merged entry, repositioning the children after a change of direction |
| MergingIterators.MergingIterator.Prev | GoodThing/Pods/leveldb-library/table/merger.cc:81-108 | steps to the previous merged entry, repositioning the children after a change of direction |
| MergingIterators.MergingIterator.FindSmallest | GoodThing/Pods/leveldb-library/table/merger.cc:148-161 | a child whose entry no other child precedes, or none if all are at their end |
| MergingIterators.MergingIterator.FindLargest | GoodThing/Pods/leveldb-library/table/merger.cc:163-176 | a child whose entry precedes no other child's, or none if all are at their end |
| TwoLevelIterators.TwoLevelIterator.Seek | GoodThing/Pods/leveldb-library/table/two_level_iterator.cc:82-87 | stands in the concatenation of all data blocks at the first entry not below the target |
| TwoLevelIterators.TwoLevelIterator.SeekToFirst | GoodThing/Pods/leveldb-library/table/two_level_iterator.cc:89-94 | stands at the first entry of the concatenation |
| TwoLevelIterators.TwoLevelIterator.SeekToLast | GoodThing/Pods/leveldb-library/table/two_level_iterator.cc:96-101 | stands at its last entry |
| TwoLevelIterators.TwoLevelIterator.Next | GoodThing/Pods/leveldb-library/table/two_level_iterator.cc:103-107 | steps to the next entry, across blocks and past empty ones |
| TwoLevelIterators.TwoLevelIterator.Prev | GoodThing/Pods/leveldb-library/table/two_level_iterator.cc:109-113 | steps to the previous entry, across blocks and past empty ones |
| TwoLevelIterators.TwoLevelIterator.SkipEmptyDataBlocksForward | GoodThing/Pods/leveldb-library/table/two_level_iterator.cc:115-126 | ends at the first entry at or after the place given, or past the end |
| TwoLevelIterators.TwoLevelIterator.SkipEmptyDataBlocksBackward | GoodThing/Pods/leveldb-library/table/two_level_iterator.cc:128-139 | ends at the last entry at or before the place given, or past the end |
| TwoLevelIterators.TwoLevelIterator.InitDataBlock | GoodThing/Pods/leveldb-library/table/two_level_iterator.cc:146-161 | the data cursor is on the block the index cursor names, reopened only if the handle changed; none past the end |
| TableCursors.TableCursor.Seek | GoodThing/Pods/leveldb-library/table/table.cc:210-214 | over the bytes of any table of typed entries, the cursor over its entries that a merging iterator asks of its children: Seek, to any internal key |
| TableCursors.TableCursor.SeekToFirst | GoodThing/Pods/leveldb-library/table/table.cc:210-214 | likewise for SeekToFirst |
| TableCursors.TableCursor.SeekToLast | GoodThing/Pods/leveldb-library/table/table.cc:210-214 | likewise for SeekToLast |
| TableCursors.TableCursor.Next | GoodThing/Pods/leveldb-library/table/table.cc:210-214 | likewise for Next |
| TableCursors.TableCursor.Prev | GoodThing/Pods/leveldb-library/table/table.cc:210-214 | likewise for Prev |
| GroupCommit.BuildBatchGroup | GoodThing/Pods/leveldb-library/db/db_impl.cc:1260-1306 | the longest front of the queue that may be committed together, and its updates in order |
| GroupCommit.GroupLengthExists | GoodThing/Pods/leveldb-library/db/db_impl.cc:1260-1306 | such a front exists and is unique |
| GroupCommit.GroupIsBounded | GoodThing/Pods/leveldb-library/db/db_impl.cc:1260-1306 | in bytes: a group has at most 128 KB more than a first write of up to 128 KB, at most 1 MB behind a larger one, or is that alone; no synced write joins one that is not; and the first writer left out would have broken one of these |
| GroupCommit.UpdatesJoin | GoodThing/Pods/leveldb-library/db/db_impl.cc:1260-1306 | the updates of a group are those of its writers, in the order of the queue |
| GroupCommit.PopWriters | GoodThing/Pods/leveldb-library/db/db_impl.cc:1239-1253 | everyone up to the last member leaves the queue with the leader's status, nobody else |
| GroupCommit.RunKeepsInv | GoodThing/Pods/leveldb-library/db/db_impl.cc:1185-1256 | what every step of every interleaving keeps: queue order, delivery, group, sequence, memtable and log |
| GroupCommit.OneLeader | GoodThing/Pods/leveldb-library/db/db_impl.cc:1191-1198 | at most one writer is at work, the head of the queue |
| GroupCommit.CompletesOnce | GoodThing/Pods/leveldb-library/db/db_impl.cc:1185-1256 | every writer that arrived waits or has left exactly once, in order of arrival, with the status of its group |
| GroupCommit.LogFollowsArrivals | GoodThing/Pods/leveldb-library/db/db_impl.cc:1260-1306 | batches reach the log in order of arrival, each record the concatenation of its members' batches |
| GroupCommit.GroupsTakeDisjointRanges | GoodThing/Pods/leveldb-library/db/db_impl.cc:1202-1236 | in every run the groups take successive ranges of sequence numbers without gaps or overlaps, whether they succeed or not |
| GroupCommit.ReadersSeeWholeGroups | GoodThing/Pods/leveldb-library/db/db_impl.cc:1206-1236 | at every moment a reader at the last sequence number sees the groups that succeeded, whole, and nothing of the one being inserted |
| GroupCommit.ReadsAreAtomic | GoodThing/Pods/leveldb-library/db/db_impl.cc:1100-1145 | so what it reads is decided by those groups alone |
| GroupCommit.SnapshotsAreStable | GoodThing/Pods/leveldb-library/db/db_impl.cc:1166-1169 | a snapshot goes on seeing the same entries whatever is written later |
| GroupCommit.FailedSyncRefuses | GoodThing/Pods/leveldb-library/db/db_impl.cc:1217-1232 | after a failed sync the database refuses writes |
| GroupCommit.RefusesForEver | GoodThing/Pods/leveldb-library/db/db_impl.cc:640-646 | from then on nothing reaches the log or the memtable, and every writer that leaves is told of an error |
| GroupCommit.FirstErrorStays | GoodThing/Pods/leveldb-library/db/db_impl.cc:640-646 | the first background error is kept, whatever fails later |
| GroupCommit.SuccessIsDurable | GoodThing/Pods/leveldb-library/db/db_impl.cc:1213-1237 | a writer told Ok finds its batch whole in the log and in the memtable, and in the synced part of its log file if it asked for a sync |
| DurableLogs.WriteFile | GoodThing/Pods/leveldb-library/db/log_writer.cc:34-80 | the bytes of a log file are what the writer writes for its groups, as far as the file takes each |
| DurableLogs.WholeFront | GoodThing/Pods/leveldb-library/db/log_writer.cc:34-80 | whole records followed by anything are a log followed by anything |
| DurableLogs.SyncedIsRecovered | GoodThing/Pods/leveldb-library/db/db_impl.cc:371-489 | of a file cut at or after its synced part, replay adds first exactly the groups up to any synced intact one, in order, whole, under their own numbers |
| DurableLogs.SyncedWriteSurvives | GoodThing/Pods/leveldb-library/db/db_impl.cc:1185-1256 | in every run, a synced write that was told Ok is recovered whole from wherever the crash cut the file, if no append to that file failed before it |
| DurableLogs.UncutKeepsSynced | GoodThing/Pods/leveldb-library/db/db_impl.cc:371-489 | a file that was not cut keeps what was synced |
| DurableLogs.HeaderHides | GoodThing/Pods/leveldb-library/db/log_reader.cc:189-271 | a header whose payload was cut short hides what follows, as long as that cannot make up for what is missing |
| GroupCommit.LogAscends | GoodThing/Pods/leveldb-library/db/db_impl.cc:1202-1236 | in every run the log holds the groups in the order of their sequence numbers, failed ones included |
| TornLogs.TornRecordHidesTheRest | GoodThing/Pods/leveldb-library/db/log_reader.cc:189-271 | if the first torn record of a file was cut behind a header and everything after it in the file is less than what is missing of that payload, replay of any cut adds exactly the groups before it that are wholly there, and finds nothing corrupt |
| TornLogs.HiddenIsLost | GoodThing/Pods/leveldb-library/db/db_impl.cc:1213-1237 | in every run, a group logged behind such a record is not recovered, wherever the file is cut |
| TornLogs.SyncedWriteSurvivesIffIntact | GoodThing/Pods/leveldb-library/db/db_impl.cc:1185-1256 | in every run where the first torn record of a file hides the rest of it, a synced write that was told Ok is recovered from every cut at or after the synced part if and only if no append to its file failed before it; otherwise from none |
| DurableLogs.TornAppendLosesSyncedWrite | GoodThing/Pods/leveldb-library/db/log_writer.cc:82-108 | a run in which an append fails after its header, the next writer syncs and is told Ok, and recovery finds nothing |
| Coding.Fixed32RoundTrip | GoodThing/Pods/leveldb-library/util/coding.cc:9-18 | 32-bit numbers come back from four bytes |
| Coding.Fixed64RoundTrip | GoodThing/Pods/leveldb-library/util/coding.cc:20-33 | 64-bit numbers come back from eight bytes |
| Coding.DecodeFixedRoundTrip | GoodThing/Pods/leveldb-library/util/coding.h:60-85 | and bytes from the number they hold |
| Coding.FixedIsLittleEndian | GoodThing/Pods/leveldb-library/util/coding.cc:9-18 | the bytes of a fixed-width number are its digits to the base 256, the lowest first |
| Coding.EncodeVarint32 | GoodThing/Pods/leveldb-library/util/coding.cc:47-73 | the unrolled encoder writes the varint |
| Coding.EncodeVarint64 | GoodThing/Pods/leveldb-library/util/coding.cc:81-90 | so does the loop |
| Coding.VarintLength | GoodThing/Pods/leveldb-library/util/coding.cc:103-110 | the length of the varint |
| Coding.GetVarintLoop | GoodThing/Pods/leveldb-library/util/coding.cc:112-128 | the decoding loop computes what VarintAt says: at most so many groups, bits beyond the width lost |
| Coding.Varint32RoundTrip | GoodThing/Pods/leveldb-library/util/coding.cc:130-140 | a 32-bit varint is read back, and nothing after it |
| Coding.Varint64RoundTrip | GoodThing/Pods/leveldb-library/util/coding.cc:159-169 | a 64-bit varint is read back, and nothing after it |
| Coding.CutVarintIsNotRead | GoodThing/Pods/leveldb-library/util/coding.cc:112-128 | a varint cut short is not read |
| Coding.VarintMeans | GoodThing/Pods/leveldb-library/util/coding.cc:112-128 | for all bytes: a varint ends at the first byte with a clear high bit, which must be among those allowed, and is the number its groups of seven bits make, lowest first, in the width of the result |
| Coding.VarintBytes | GoodThing/Pods/leveldb-library/util/coding.cc:81-90 | the encoder writes such groups of exactly that number, and no byte in vain |
| Coding.LengthPrefixedRoundTrip | GoodThing/Pods/leveldb-library/util/coding.cc:181-190 | a string is read back, and nothing after it, exactly when its length fits 32 bits |
| WriteBatches.WriteBatch.Put | GoodThing/Pods/leveldb-library/db/write_batch.cc:98-103 | one more put, counted |
| WriteBatches.WriteBatch.Delete | GoodThing/Pods/leveldb-library/db/write_batch.cc:105-109 | one more deletion, counted |
| WriteBatches.WriteBatch.Append | GoodThing/Pods/leveldb-library/db/write_batch.cc:144-148 | the other batch's records after its own, counts added |
| WriteBatches.WriteBatch.SetSequence | GoodThing/Pods/leveldb-library/db/write_batch.cc:94-96 | only the sequence number changes |
| WriteBatches.ParseRoundTrip | GoodThing/Pods/leveldb-library/db/write_batch.cc:42-80 | the records of a batch are read back |
| WriteBatches.WriteBatch.InsertInto | GoodThing/Pods/leveldb-library/db/write_batch.cc:132-137 | the records that can be parsed are added under successive numbers, and the status tells what is wrong |
| WriteBatches.InsertRoundTrip | GoodThing/Pods/leveldb-library/db/write_batch.cc:132-137 | what was batched is added, all of it, numbered from the batch's sequence number |
| WriteBatches.CutBatchIsRefused | GoodThing/Pods/leveldb-library/db/write_batch.cc:42-80 | a batch cut anywhere is refused, and only updates from its front reach the memtable |
| WriteBatches.UnknownTagIsRefused | GoodThing/Pods/leveldb-library/db/write_batch.cc:72-74 | an unknown tag ends the batch there with an error, after the updates before it |
| Crc32c.Extend | GoodThing/Pods/leveldb-library/util/crc32c.cc:276-377 | the four-stride table algorithm, at any alignment, computes the bit-by-bit CRC |
| Crc32c.ExtendAppends | GoodThing/Pods/leveldb-library/util/crc32c.cc:276-377 | extending twice is extending by the concatenation |
| Crc32c.StrideStep | GoodThing/Pods/leveldb-library/util/crc32c.cc:293-300 | one word through one stride is one word through the register |
| Crc32c.MaskIsUndone | GoodThing/Pods/leveldb-library/util/crc32c.h:29-38 | masking and unmasking undo each other |
| Crc32c.MaskRotates | GoodThing/Pods/leveldb-library/util/crc32c.h:29-32 | masking rotates right by 15 bits and adds a282ead8 |
| Crc32c.ByteTableBasis | GoodThing/Pods/leveldb-library/util/crc32c.cc:20-64 | the byte table at the powers of two, value by value |
| Crc32c.ByteTableIsLinear | GoodThing/Pods/leveldb-library/util/crc32c.cc:20-63 | and its other entries by exclusive or |
| Crc32c.CheckValue | GoodThing/Pods/leveldb-library/util/crc32c.cc:276-377 | the checksum of the digits 1 to 9 is e3069283, the check value of CRC-32C |
| Logs.Writer.AddRecord | GoodThing/Pods/leveldb-library/db/log_writer.cc:34-80 | exactly the fragments of the record, or as many of their bytes as the file takes; the block offset moves past the fragment that failed as if it had been written |
| Logs.Writer.EmitPhysicalRecord | GoodThing/Pods/leveldb-library/db/log_writer.cc:82-108 | header and payload, or what the file takes of them; the block offset moves on in any case |
| Logs.FragmentsFillBlocks | GoodThing/Pods/leveldb-library/db/log_writer.cc:59-66 | a fragment is the last of its record, or ends where its block does |
| Logs.EnoughRoom | GoodThing/Pods/leveldb-library/db/log_writer.cc:34-80 | in a file that takes everything the offset is where the record ends |
| Logs.Reader.ReadPhysicalRecord | GoodThing/Pods/leveldb-library/db/log_reader.cc:189-271 | the next physical record of the file, with the bytes reported dropped; LogReports says of which damage they are reported |
| Logs.Reader.ReadRecord | GoodThing/Pods/leveldb-library/db/log_reader.cc:56-174 | the next logical record, or none, with the bytes reported dropped; LogReports says of which damage they are reported |
| LogRecovery.EmitItems | GoodThing/Pods/leveldb-library/db/log_reader.cc:189-271 | the reader finds exactly the fragments the writer emitted |
| LogRecovery.PrefixIsRecovered | GoodThing/Pods/leveldb-library/db/log_reader.cc:56-174 | whatever byte a log was cut at, exactly the records wholly before the cut are returned, and no corruption is reported |
| LogRecovery.WholeRecordsFit | GoodThing/Pods/leveldb-library/db/log_reader.cc:56-174 | a record counts as whole exactly when the log up to it fits before the cut |
| LogRecovery.FirstRecord | GoodThing/Pods/leveldb-library/db/log_reader.cc:56-174 | a whole record at the front is read, whatever follows it |
| LogDamage.DamageNeverSplices | GoodThing/Pods/leveldb-library/db/log_reader.cc:56-174 | if block suffixes are replaced by anything whose first physical record fails its test, reading returns, in order, exactly the records without a fragment in them, and never a splice of two |
| LogDamage.NoDamageNoLoss | GoodThing/Pods/leveldb-library/db/log_reader.cc:56-174 | without damage nothing is lost |
| LogReports.QuietIffNoReports | GoodThing/Pods/leveldb-library/db/log_reader.cc:56-174 | a damaged log is read without a report if and only if every record is kept whole, or lost from its first fragment on, at cuts that are silent, or runs into the end of the file |
| LogReports.LoudCutIsReported | GoodThing/Pods/leveldb-library/db/log_reader.cc:216-256 | a replaced suffix that fails the checksum test, or the length test in a block that is not the last, is reported, whatever else is damaged |
| LogReports.SilentCutsAreNotReported | GoodThing/Pods/leveldb-library/db/log_reader.cc:216-256 | where every failing suffix is a zero record, or too long for a last block, and no record is under reassembly, nothing is reported |
| Corruptions.DamagedLogIsRefused | GoodThing/Pods/leveldb-library/db/db_impl.cc:413-434 | recovery with paranoid checks refuses a log in which something is reported; without them it reads on |
| Corruptions.DamagedManifestIsRefused | GoodThing/Pods/leveldb-library/db/version_set.cc:926-969 | a manifest in which something is reported does not open, and the failure is a corruption if the surviving records are edits of this database |
| Corruptions.SilentDamageIsAccepted | GoodThing/Pods/leveldb-library/db/db_impl.cc:413-434 | damage that nothing reports is accepted even with paranoid checks, exactly if the surviving batches are sound |
| Recovery.RecoverLogFile | GoodThing/Pods/leveldb-library/db/db_impl.cc:371-489 | adds to the memtable what Replay says, in order; the last sequence number is not below where it was, is that or the last number of a batch that was read, and unless the log is refused no batch that was read goes beyond it |
| Recovery.CrashRecovery | GoodThing/Pods/leveldb-library/db/db_impl.cc:371-489 | of a log cut anywhere, exactly the groups wholly before the cut are added, whole, under their own numbers, and nothing is found corrupt |
| Recovery.FrontIsReplayed | GoodThing/Pods/leveldb-library/db/db_impl.cc:371-489 | the groups at the front of a log are added first, whatever follows them |
| Recovery.LastOfGroup | GoodThing/Pods/leveldb-library/db/db_impl.cc:435-436 | the last sequence number of a group that fits in 64 bits |
| Recovery.ReplayedSequence | GoodThing/Pods/leveldb-library/db/db_impl.cc:435-439 | the same for every log, however damaged: recovery goes on from the greatest last number of the batches it read, or from where it was |
| Recovery.RecoveredSequence | GoodThing/Pods/leveldb-library/db/db_impl.cc:435-439 | of a log cut anywhere: no update that was recovered is numbered beyond the result, no surviving group ends beyond it, and it is where it was or the last number of a surviving group |
| Recovery.ParanoidAcceptsOnlySound | GoodThing/Pods/leveldb-library/db/db_impl.cc:413-434 | with paranoid checks a log is accepted if and only if nothing in it is reported corrupt and every record is a sound batch; without them, always |
| SkipLists.SkipList.Insert | GoodThing/Pods/leveldb-library/db/skiplist.h:337-368 | the key goes into its place at level 0, every level stays an ordered sublist of the one below |
| SkipLists.SkipList.Contains | GoodThing/Pods/leveldb-library/db/skiplist.h:371-378 | true if and only if the key is in the list |
| SkipLists.SkipList.FindGreaterOrEqual | GoodThing/Pods/leveldb-library/db/skiplist.h:260-281 | the first node not before the key, and its predecessors at every level in use |
| SkipLists.SkipList.FindLessThan | GoodThing/Pods/leveldb-library/db/skiplist.h:285-302 | the last node before the key |
| SkipLists.SkipList.FindLast | GoodThing/Pods/leveldb-library/db/skiplist.h:305-322 | the last node |
| SkipLists.SkipList.Publish | GoodThing/Pods/leveldb-library/db/skiplist.h:361-367 | linking a node at one level keeps the whole list valid, so a reader may look between any two of them |
| SkipLists.SkipList.SearchStep | GoodThing/Pods/leveldb-library/db/skiplist.h:264-281 | one step of a reader keeps its search on course, and the last one ends at the key's place |
| SkipLists.SearchSurvivesPublish | GoodThing/Pods/leveldb-library/db/skiplist.h:337-368 | a search under way stays on course when a writer links a node anywhere |
| SkipListSearches.SearchEnds | GoodThing/Pods/leveldb-library/db/skiplist.h:337-368 | over every interleaving of a search with a writer, from any point on: the search stays on course, its steps are bounded by what is left of its way and the stores still to come, and a step that ends it ends it right |
| SkipListSearches.InterleavedSearchEnds | GoodThing/Pods/leveldb-library/db/skiplist.h:260-281 | a search from the head, whatever is published meanwhile, ends after a bounded number of its own steps, at the first node at or after the key of the lowest level of that moment |
| SkipLists.Iterator.Seek | GoodThing/Pods/leveldb-library/db/skiplist.h:224-226 | the first node not before the target |
| SkipLists.Iterator.Next | GoodThing/Pods/leveldb-library/db/skiplist.h:207-210 | the next node |
| SkipLists.Iterator.Prev | GoodThing/Pods/leveldb-library/db/skiplist.h:213-221 | the previous node, found by searching |
| SkipLists.Iterator.SeekToLast | GoodThing/Pods/leveldb-library/db/skiplist.h:234-239 | the last node |
| HandleTables.HandleTable.Lookup | GoodThing/Pods/leveldb-library/util/cache.cc:74-76 | the handle with this key and hash, if there is one |
| HandleTables.HandleTable.Insert | GoodThing/Pods/leveldb-library/util/cache.cc:78-92 | the new handle replaces the one with its key; the load stays below one |
| HandleTables.HandleTable.Remove | GoodThing/Pods/leveldb-library/util/cache.cc:94-102 | exactly the handle with this key leaves |
| HandleTables.HandleTable.Resize | GoodThing/Pods/leveldb-library/util/cache.cc:122-146 | all handles are in the new table, in their slots |
| LruCaches.LRUCache.Insert | GoodThing/Pods/leveldb-library/util/cache.cc:266-303 | the new entry replaces the one with its key, the caller holds it, and idle entries are evicted oldest first until the charge fits; capacity zero keeps nothing |
| LruCaches.LRUCache.Lookup | GoodThing/Pods/leveldb-library/util/cache.cc:252-259 | the entry with this key, if cached, now held once more and not evictable |
| LruCaches.LRUCache.Release | GoodThing/Pods/leveldb-library/util/cache.cc:261-264 | one handle less; the last one makes a cached entry the newest idle one and frees one that is not cached |
| LruCaches.LRUCache.Erase | GoodThing/Pods/leveldb-library/util/cache.cc:318-321 | the entry leaves the cache, and is freed only if nobody holds it |
| LruCaches.LRUCache.Prune | GoodThing/Pods/leveldb-library/util/cache.cc:323-333 | every idle entry is freed, none that is held |
| LruCaches.LRUCache.FinishErase | GoodThing/Pods/leveldb-library/util/cache.cc:307-316 | the cache gives up one entry: off its list, out of the charge, one reference less |
| LruCaches.LRUCache.Shrink | GoodThing/Pods/leveldb-library/util/cache.cc:293-301 | idle entries leave oldest first until the charge fits |
| LruCaches.TakenIsValid | GoodThing/Pods/leveldb-library/util/cache.cc:217-223 | taking a handle keeps the cache's accounting: no entry freed while held or cached, none freed twice |
| LruCaches.ReleasedIsValid | GoodThing/Pods/leveldb-library/util/cache.cc:225-237 | giving one back keeps it too |
| LruCaches.EvictedIsValid | GoodThing/Pods/leveldb-library/util/cache.cc:307-316 | so does evicting, which lowers the usage by exactly the charge |
| LruCaches.ShrinkTakesOldest | GoodThing/Pods/leveldb-library/util/cache.cc:293-301 | the oldest idle entry goes first |
| LruOrder.IdleInOrder | GoodThing/Pods/leveldb-library/util/cache.cc:217-242 | after any sequence of calls the idle list is in the order in which its entries were last released, and none was taken since |
| LruOrder.OldestGoesFirst | GoodThing/Pods/leveldb-library/util/cache.cc:293-301 | so what a full cache evicts was released before everything that stays idle |
| Blocks.BlockBuilder.Add | GoodThing/Pods/leveldb-library/table/block_builder.cc:72-106 | one more pair, its key stored as the longest prefix it shares with the last key and the rest, and whole at a restart, every so many entries |
| Blocks.BlockBuilder.Finish | GoodThing/Pods/leveldb-library/table/block_builder.cc:62-70 | the block's bytes: entries, restart offsets, their number |
| Blocks.EntryDecodes | GoodThing/Pods/leveldb-library/table/block.cc:54-74 | every entry is decoded back |
| Blocks.OpenBlock | GoodThing/Pods/leveldb-library/table/block.cc:24-39 | the number of restarts and where they start; refused if and only if they do not fit |
| Blocks.BlockIter.Seek | GoodThing/Pods/leveldb-library/table/block.cc:163-201 | binary search of the restarts and a scan: stands at the first key not below the target |
| Blocks.BlockIter.Next | GoodThing/Pods/leveldb-library/table/block.cc:137-140 | stands at the next pair, its key and value restored |
| Blocks.BlockIter.Prev | GoodThing/Pods/leveldb-library/table/block.cc:142-161 | stands at the previous pair, reparsed from the restart before it |
| Blocks.BlockIter.SeekToLast | GoodThing/Pods/leveldb-library/table/block.cc:208-213 | stands at the last pair |
| Comparators.SeparatorIsBetween | GoodThing/Pods/leveldb-library/util/comparator.cc:29-50 | the separator is no longer than the start, and is the start or strictly between the two keys |
| Comparators.FindShortestInternalSeparator | GoodThing/Pods/leveldb-library/db/dbformat.cc:69-86 | an internal key that separates the two, shorter only when the user key is |
| Comparators.SeparatorIsOrdered | GoodThing/Pods/leveldb-library/db/dbformat.cc:69-86 | it is not before the start and before the limit |
| Comparators.FindShortInternalSuccessor | GoodThing/Pods/leveldb-library/db/dbformat.cc:88-101 | an internal key not before the last one |
| BloomFilters.BloomFilterPolicy.CreateFilter | GoodThing/Pods/leveldb-library/util/bloom.cc:28-54 | a filter of the right size in which exactly the probes of the keys are set |
| BloomFilters.BloomFilterPolicy.KeyMayMatch | GoodThing/Pods/leveldb-library/util/bloom.cc:56-80 | true if and only if all the key's probes are set, or the filter is of a kind to come |
| BloomFilters.NoFalseNegatives | GoodThing/Pods/leveldb-library/util/bloom.cc:56-80 | a key a filter was made for always matches |
| BloomFilters.MatchIsExact | GoodThing/Pods/leveldb-library/util/bloom.cc:56-80 | a key matches if and only if every bit probed for it is probed for some key the filter was made for: which false positives there are |
| BloomFilters.ProbesStep | GoodThing/Pods/leveldb-library/util/bloom.cc:46-52 | the j-th probe is the hash and j times a step, in 32 bits |
| BloomFilters.DeltaRotates | GoodThing/Pods/leveldb-library/util/bloom.cc:47-47 | that step is the hash with its low 17 bits put in front |
| FilterBlocks.FilterBlockBuilder.StartBlock | GoodThing/Pods/leveldb-library/table/filter_block.cc:21-27 | one filter for every 2 KB of file, closing the pending group |
| FilterBlocks.FilterBlockBuilder.Finish | GoodThing/Pods/leveldb-library/table/filter_block.cc:35-49 | filters, their offsets, where those start, and the base |
| FilterBlocks.FilterBlockReader.KeyMayMatch | GoodThing/Pods/leveldb-library/table/filter_block.cc:90-104 | never false for a key of the block's group; for a group with keys true if and only if all probes of the key meet those of the group; false for an empty group; true beyond the filters |
| TableFormats.HandleRoundTrip | GoodThing/Pods/leveldb-library/table/format.cc:15-21 | a block handle is read back |
| TableFormats.FooterRoundTrip | GoodThing/Pods/leveldb-library/table/format.cc:31-40 | the footer has 48 bytes and gives both handles back |
| TableFormats.FooterIsRefused | GoodThing/Pods/leveldb-library/table/format.cc:42-62 | a footer is read if and only if it ends with the eight magic bytes and begins with two handles |
| TableFormats.ReadBlock | GoodThing/Pods/leveldb-library/table/format.cc:64-139 | the bytes of the block if and only if the file has it and its trailer, it is not compressed, and its checksum, if asked for, is right |
| TableBuilders.TableBuilder.Add | GoodThing/Pods/leveldb-library/table/table_builder.cc:94-123 | one more pair after the last; the index entry of a finished block is added with a separator; the block ends with this pair if and only if it has reached the block size |
| TableBuilders.TableBuilder.Flush | GoodThing/Pods/leveldb-library/table/table_builder.cc:125-139 | the pending block goes to the file as it was built; nothing is lost, and nothing happens if it is empty |
| TableBuilders.TableBuilder.EndIfFull | GoodThing/Pods/leveldb-library/table/table_builder.cc:119-122 | as long as blocks ended only because they were full, so does this one: at the block size, and not before |
| TableBuilders.TableBuilder.Finish | GoodThing/Pods/leveldb-library/table/table_builder.cc:198-253 | the file is a table, footer to filter, whose blocks hold exactly the pairs added, in order |
| Tables.OneBlockIsEnough | GoodThing/Pods/leveldb-library/table/table.cc:216-244 | the block the index seek finds holds the first key not below the target, or that key has another user key |
| Tables.SeekPastIndex | GoodThing/Pods/leveldb-library/table/table.cc:216-244 | past the index there is no such key |
| TableReaders.OpenTable | GoodThing/Pods/leveldb-library/table/table.cc:38-82 | opens index and filter of every table the builder can make |
| TableReaders.ReadMeta | GoodThing/Pods/leveldb-library/table/table.cc:84-111 | the filter of that policy, if the table was made with one |
| TableReaders.Table.BlockReader | GoodThing/Pods/leveldb-library/table/table.cc:155-208 | a cursor over the block the index entry names |
| TableReaders.Table.FilterMayMatch | GoodThing/Pods/leveldb-library/table/table.cc:223-228 | when the filter says no, the key is in no block it covers |
| TableReaders.Table.InternalGet | GoodThing/Pods/leveldb-library/table/table.cc:216-244 | lookup never misses: what is returned is the first key not below the target, and if nothing is, that key has another user key or does not exist |
| TableReaders.InternalHashIsUserKeyed | GoodThing/Pods/leveldb-library/db/dbformat.cc:105-119 | filters are made of user keys: internal keys of one user key have one hash |
| TableGets.TableIsFile | GoodThing/Pods/leveldb-library/db/builder.cc:17-64 | whatever byte strings its user keys are, a table with one typed entry per user key and sequence number is a valid file of a version, sorted, with its first and last key as bounds |
| TableGets.SaveValue | GoodThing/Pods/leveldb-library/db/version_set.cc:263-276 | of a pair of a known type, the operation of the entry it stores if that is the user key's; corrupt if and only if the type is unknown or the key too short |
| TableGets.Get | GoodThing/Pods/leveldb-library/db/table_cache.cc:100-112 | for every byte string as user key, a lookup in the bytes of a table is the lookup that versions make in the file of its entries |
| UserKeys.NumberKeepsOrder | GoodThing/Pods/leveldb-library/util/comparator.cc:25-27 | byte strings have places among the numbers: the bytewise order is the order of these places, for all byte strings |
| UserKeys.SameOrder | GoodThing/Pods/leveldb-library/db/dbformat.cc:51-67 | the bytes of internal keys compare as user key, sequence number and type do |
| UserKeys.KeyReadBack | GoodThing/Pods/leveldb-library/db/dbformat.cc:20-23 | the internal key made of a user key, a sequence number and a type says just these |
| BuildTables.BuildTable | GoodThing/Pods/leveldb-library/db/builder.cc:31-45 | for every strictly increasing list of internal keys, the file is a table that holds exactly these pairs, in order; every block but the last has reached the block size, and none had before its last pair |
| Tables.AllAscends | GoodThing/Pods/leveldb-library/table/table_builder.cc:94-123 | the keys of a table ascend, from block to block too |
| ProtoEncode.OStream.Write | GoodThing/Pods/nanopb/pb_encode.c:103-124 | the bytes go out if and only if there is room, otherwise nothing is lost or added |
| ProtoEncode.EncodeVarint | GoodThing/Pods/nanopb/pb_encode.c:608-628 | the varint, if there is room |
| ProtoEncode.EncodeSubmessage | GoodThing/Pods/nanopb/pb_encode.c:717-765 | length and contents, sized first by a pass that only counts; both passes agree |
| ProtoEncode.PackedSize | GoodThing/Pods/nanopb/pb_encode.c:166-190 | the size of a packed array is that of what is then written |
| ProtoEncode.Encode | GoodThing/Pods/nanopb/pb_encode.c:528-550 | the encoding of the message, if and only if every value can be encoded and there is room |
| ProtoEncode.EncodedSize | GoodThing/Pods/nanopb/pb_encode.c:567-576 | the exact size of that encoding |
| ProtoStreams.DecodeVarint32 | GoodThing/Pods/nanopb/pb_decode.c:187-247 | what the byte-level reader says of 32-bit varints, overlong ones and the end of the stream included |
| ProtoStreams.DecodeVarint | GoodThing/Pods/nanopb/pb_decode.c:255-275 | the same for 64 bits |
| ProtoStreams.DecodeTag | GoodThing/Pods/nanopb/pb_decode.c:298-319 | tag and wire type, or the end of the message |
| ProtoStreams.SkipUnknown | GoodThing/Pods/nanopb/pb_decode.c:321-331 | skips exactly one field of that wire type |
| ProtoStreams.MakeSubstream | GoodThing/Pods/nanopb/pb_decode.c:372-385 | a stream over exactly the delimited bytes |
| ProtoStreams.CloseSubstream | GoodThing/Pods/nanopb/pb_decode.c:387-400 | goes on exactly after them |
| ProtoStreams.FieldsSeen.Mark | GoodThing/Pods/nanopb/pb_decode.c:1021-1026 | marks one required field in the bitmap |
| ProtoStreams.FieldsSeen.AllSeen | GoodThing/Pods/nanopb/pb_decode.c:1060-1078 | true if and only if every required field is marked |
| ProtoStreams.SetToDefaults | GoodThing/Pods/nanopb/pb_decode.c:917-928 | every slot holds its default |
| ProtoStreams.DecodeNoInit | GoodThing/Pods/nanopb/pb_decode.c:934-1082 | what ReadMessage makes of the bytes ahead, into a structure already filled |
| ProtoStreams.Decode | GoodThing/Pods/nanopb/pb_decode.c:1084-1096 | what DecodeMessage makes of the bytes ahead, of which ProtoRefusals says when it is nothing |
| Messages.FieldIter.Find | GoodThing/Pods/nanopb/pb_common.c:87-104 | a field with the tag wherever it is, or the proof that there is none |
| ProtoRefusals.UnsignedIsExact | GoodThing/Pods/nanopb/pb_decode.c:1382-1404 | an unsigned number is taken as it is if its field has room for it, and refused otherwise |
| ProtoRefusals.SignedIsExact | GoodThing/Pods/nanopb/pb_decode.c:1345-1380 | a signed field takes the one number it can hold with the same low bits, 64 for a field of eight bytes and 32 for a smaller one, or refuses |
| ProtoRefusals.NegativeEitherWay | GoodThing/Pods/nanopb/pb_decode.c:1353-1361 | so a negative number sent in 32 bits or in 64 is the same number for a field of four bytes or fewer |
| ProtoRefusals.ZigZagIsExact | GoodThing/Pods/nanopb/pb_decode.c:1406-1428 | a zigzag field takes the number whose code is read, 2n or -2n-1, exactly if it fits |
| ProtoRefusals.Varint32OfAny | GoodThing/Pods/nanopb/pb_decode.c:187-247 | of a number of 64 bits a 32-bit varint gives the number, or its low half if the rest repeats the sign as far as that is checked, or nothing |
| ProtoRefusals.LongVarint32 | GoodThing/Pods/nanopb/pb_decode.c:187-247 | a length or key from 2^32 up to 2^63 is refused; a sign-extended negative one counts with its low half |
| ProtoRefusals.ValueIsRefused | GoodThing/Pods/nanopb/pb_decode.c:1334-1570 | for each type, exactly the bytes no value can be read from: varints without end, numbers too large, strings without room, lengths that are wrong or run past the end |
| ProtoRefusals.StuckIff | GoodThing/Pods/nanopb/pb_decode.c:952-1030 | the record ahead cannot be read exactly if it has no key, or is unknown and cannot be skipped, or its field refuses it, is full, or holds a packed value that is refused |
| ProtoRefusals.RefusedIff | GoodThing/Pods/nanopb/pb_decode.c:1084-1096 | for all bytes: decoding fails if and only if after some number of records the next cannot be read, or the message ends without a required field |
| ProtoRefusals.LargeNumberIsRefused | GoodThing/Pods/nanopb/pb_decode.c:1400-1401 | anywhere in a message, a record of an unsigned field with a number it has no room for makes decoding fail |
| ProtoRefusals.WiderFieldIsRefused | GoodThing/Pods/nanopb/pb_decode.c:1400-1401 | for instance a first record as the encoder of a wider field writes it |
| ProtoRefusals.MissingRequiredIsRefused | GoodThing/Pods/nanopb/pb_decode.c:1060-1078 | a message without one of its first 64 required fields is refused, whatever else it holds |
| ProtoRoundTrip.ZigZagRoundTrip | GoodThing/Pods/nanopb/pb_encode.c:630-639 | zigzag codes of 64-bit numbers decode to where they came from |
| ProtoRoundTrip.UnZigZagRoundTrip | GoodThing/Pods/nanopb/pb_decode.c:1285-1297 | and every 64-bit code encodes back to itself |
| ProtoRoundTrip.NumberRoundTrip | GoodThing/Pods/nanopb/pb_decode.c:1345-1380 | a signed number of 1, 2, 4 or 8 bytes comes back from its 64-bit varint |
| ProtoRoundTrip.RoundTrip | GoodThing/Pods/nanopb/pb_decode.c:1084-1096 | an encodable message is decoded if and only if every string in it leaves room for its NUL, and then it is the same message |
| ProtoVersions.FieldSkipped | GoodThing/Pods/nanopb/pb_decode.c:321-331 | whatever an encoder writes for a field the reader does not know is passed over, to the byte |
| ProtoVersions.OlderReaderReads | GoodThing/Pods/nanopb/pb_decode.c:966-995 | a reader that knows only some of a message's fields reads these as they were sent, and refuses the message if and only if one of its own strings fills its buffer |
| ProtoVersions.WiderFieldReads | GoodThing/Pods/nanopb/pb_encode.c:776-797 | a wider field reads the number a narrower one was written with, negative or not |
| ProtoVersions.DefaultsTakeNoBytes | GoodThing/Pods/nanopb/pb_encode.c:240-335 | a message as it is by default takes no bytes if and only if it has no required field and, without a has_ flag, no fixed-length byte string and no message that is always sent |
| ProtoExchange.Exchange | GoodThing/Pods/nanopb/pb_encode.c:528-550 | the same through a bounded output stream and an input stream over what it took |
| ProtoExchange.FullStringIsRefused | GoodThing/Pods/nanopb/pb_decode.c:1487-1523 | a two-letter string in a two-byte field is encoded, and refused by the decoder |

## Left out

Contracts that say less than the code might be asked for:

- CompactionReads.CompactionPreservesReads: the edit is applied to the version it was computed from; a flush inside the compaction loop is not modelled.
- VersionSets.VersionSet.LogAndApply: builds and installs the version; the manifest, the numbers and the failures are in Descriptors.ManifestWriter.LogAndApply.
- Databases.MemTableGet: over entries; their bytes are in MemTables.MemTable.Get.
- Databases.InsertEntryKeepsSorted: over entries; their bytes are in MemTables.MemTable.Add.
- Databases.DBImpl.SwitchMemTable: the new log file, and that opening it may fail, are events of GroupCommit.
- MemTables.MemTable.Add: user keys of less than 2^32 - 8 bytes and values of less than 2^32, since longer ones do not fit their length prefix.
- Databases.DBImpl.RunCompaction: one compaction at a time, with the same restriction.
- TableReaders.Table.InternalGet: reads tables that a builder finished, in files below 2^64 bytes with blocks below 2^32; corrupt blocks, whose iterators report a status, are not modelled.
- TableReaders.OpenTable: the same; a footer or an index block that cannot be read is not modelled.
- TableReaders.ReadMeta: the same; errors reading the metaindex or the filters are not modelled.
- TableReaders.Table.BlockReader: the same, without the block cache.
- TableFormats.ReadBlock: blocks that are not compressed.
- BloomFilters.BloomFilterPolicy.CreateFilter: the hash is a parameter, and so is the number of probes, 0.69 times the bits per key in the code.
- Logs.Reader.ReadRecord: reads from the start of the file, with checksums.
- TwoLevelIterators.TwoLevelIterator.Seek: runs over such tables only, so no block read fails and no status is saved.
- Blocks.BlockIter.Seek: runs over blocks that a builder finished; the corruption branches of parsing are not modelled.
- DurableLogs.SyncedWriteSurvives: states that an intact file suffices; that it is needed is TornLogs.SyncedWriteSurvivesIffIntact, for files whose first torn record hides the rest.
- TornLogs.SyncedWriteSurvivesIffIntact: files whose first torn record was cut in a header, between fragments, or is followed by enough bytes to fill its payload are left undecided.
- Descriptors.ManifestWriter.LogAndApply: an append to the manifest that fails part way leaves a torn manifest, which is not followed further.
- Descriptors.Recover: starts from the bytes of the manifest; reading CURRENT, marking file numbers used, reusing the manifest and the compaction pointers are not modelled.
- Recovery.RecoverLogFile: inserts into one memtable; writing a full one to level 0 during recovery, reusing the log and choosing which old logs to replay are not modelled.
- Recovery.CrashRecovery: counts of 2^31 and more, which the code reads back as negative ints, are taken as they are.
- LogDamage.DamageNeverSplices: that damage fails the length, zero-record or checksum test is a hypothesis; collisions of the CRC are not excluded.
- Crc32c.Extend: the stride tables are taken by their defining equation, and the accelerated implementation is not modelled.
- HandleTables.HandleTable.Lookup: the mask by a power of two is written as a remainder.
- ProtoRoundTrip.RoundTrip: messages whose encoding is below 2^32 bytes, since lengths are 32-bit varints.
- ProtoEncode.Encode: without callbacks and extension fields.
- ProtoStreams.DecodeNoInit: without callbacks, extensions and fixed-count arrays.
- ProtoStreams.Decode: streams are over byte sequences; a callback that fails on its own is not modelled.

What the repository does and the model does not:

- The app's own Swift code, which is user interface and calls to remote services.
- Comparators other than the bytewise one where bytes are read or written; elsewhere user keys are numbers, in which any countable total order embeds.
- Files are byte sequences of which a crash keeps a prefix; directories, renames, memory maps and locks are left out.
- Snappy compression, the block cache and the table cache, option handling, loggers and repair.
- Seek statistics, read sampling and compaction scores, which only decide where a compaction starts.
- The memory order of atomics: the skip list is modelled with one step per published pointer.
- The arena as memory: a memtable's entries are byte strings kept by their place in the list.
- Resuming a log reader at an offset other than zero.
- The sharding of the cache and what its destructor does.
- The children of a merging iterator are one class of cursors, since a table's cursor shares only its contract.
- nanopb's callbacks, extensions, pointer fields, fixed-count arrays and the layout of structs in memory; a struct is a sequence of slots, one per field of its descriptor.
- nanopb built without 64-bit integers, with unpacked arrays, or with field sizes of less than 32 bits.
