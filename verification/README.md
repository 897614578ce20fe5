# A verified model of a log-structured merge store

Writes pass through a sequence-numbered ring buffer to one writer, which logs them and fills one of two skip-list
memtables. A flusher turns the frozen memtable into a table at level 0, three compactors merge four tables at a time
down to level 7, and readers search the memtables and then one snapshot of each level without ever taking a global
snapshot.

The project has two layers that share their vocabulary of keys, versions and maps (`Entries`):

* **The protocol.** `StoreModel` is the store as an interleaved state machine: one step is one atomic section of one
  thread. `StoreInvariant` states the invariant, in parts that `StoreMemory` (memtables, logs, handshake), `StoreTables`
  and `Tiling` (levels), `StoreCompaction`, `StoreWakeups` and `StoreReaders` (searches under way) show to be kept;
  `StoreSafety` puts the parts together for all runs, and `StoreTheorems` draws the conclusions. `StoreAnswers` says which
  version a search finds, `StoreDepth` when tombstones disappear, `StoreLinear` orders the calls of a whole run,
  `StoreProgress` bounds the work of the background threads, and `Rounds` follows a compactor through a run. `Db` holds the threads as programs over the same state, with `Threads` telling whose step a step is:
  each round of a thread, and each call of `put` and `get`, in the order of its statements, with any steps of the other
  threads between its sections. Its contracts list the sections a round takes and what each of them leaves behind.
* **The parts.** Classes over bytes and fields, each shown to do what the protocol takes for granted: the skip list in
  its byte arena (`Arena`, `SkipSpec`, `SkipLists`), the record codec and the log (`Records`, `Codec`, `Wal`), the
  table file with its builder, reader and merger (`TableFormat`, `TableBuilder`, `TableReader`, `MergeSpec`,
  `TableMerger`, `Tables`), the ring buffer (`RingSpec`, `RingBuffers`), the Bloom filter and the hash (`Bits`, `Murmur`, `Bloom`).
  `Refinement` puts the parts in the places of the protocol's maps: search and merge on skip lists and files do what
  the protocol's search and merge do on maps; a flushed file stands for the memtable's map, and the protocol's logs are
  the bytes that the codec is proved to read back. `StoreQueue` puts the ring buffer in the place of the protocol's
  numbering and shows that every run of both together is a run of the protocol.

Ghost state records history only: the interval of writes a table stands for, the number of writes a search began
with, the records written to a file.

Four facts about the code that the statements make exact:

* An empty key inserted into an empty memtable is lost, because the head node has an empty key as well
  (`SkipLists.SkipList.Insert`, `Wal.ReplayIntoEmpty`). The protocol loses it in the same way and keeps a history of
  what became of each write (`Event`); its theorems hold for all keys over that history, and for keys that are not
  empty the history is the writes themselves (`StoreTheorems.NothingLost`).
* `get` hands out `""` for a deleted key whose tombstone is still there and for a key whose value is empty, and nothing
  for a key that was never written or whose tombstone a merge has dropped. Some theorems speak of what a client can
  conclude in any case (`Visible`), in which deleted and missing are the same; `StoreAnswers` says exactly which version
  is found, `StoreDepth` which tombstones are dropped, and `StoreTheorems.ReportedIsExact` and
  `TableReader.SSTableReader.FindKey` which string is handed out.
* Probes are cast to 32 bits, so of the filters of more than 2^32 bits that the deepest levels get, only the first
  2^32 bits are used; lookups stay right (`Bloom.UpperPartUnused`, `Bloom.ProbesDistinct`).
* A release of `start_compactor` may find it already set. Every step that releases it takes an argument saying whether
  it counts up or stays set; all theorems hold for either.

## Model

| member | source | states |
|---|---|---|
| StoreTheorems.GetIsLinearizable | DB.cpp:300-388 | For every run: the answer of a finished `get` is what an instantaneous search gives at some instant between its begin and its end, and at that instant every write numbered before the call is in place (read-your-writes) |
| StoreAnswers.GetFindsVersion | DB.cpp:300-388 | For every run: what a finished `get` has found is the current version of its key, tombstone or value, at an instant of the call with every write numbered before it in place; or nothing, and then the key is deleted or was never written at that instant |
| StoreAnswers.FoundWasWritten | DB.cpp:345-388 | Nothing is made up: in every reachable state, what a search has found is the entry of an inserted write of its key; so a key that was never written is never found |
| StoreAnswers.SearchIsExact | DB.cpp:345-388 | In every reachable state, for every key: an instantaneous search finds the current version, tombstone or value, if any memtable or listed table has a version of the key, and nothing otherwise |
| StoreAnswers.UndisturbedFinds | DB.cpp:345-388 | Looking at the places one after the other, nothing happening beside it, a search finds what a search in one instant finds |
| StoreAnswers.SearchAfterAcknowledged | DB.cpp:318-326 | In every run, no search starts before every write numbered before its call is acknowledged |
| StoreLinear.RunIsLinearizable | DB.cpp:289-388 | For every run there is one order of all numbered calls of `put` and all finished calls of `get`, each once, in which no call comes before one that was over before it began, and in which every `get` finds the version that the puts before it leave, tombstone or value, or nothing for a key they leave deleted or unwritten (for a key that is not empty: by the writes themselves; for any key: by what became of them) |
| StoreLinear.GetBelongs | DB.cpp:300-388 | Every finished `get` has a place among the writes: behind all that had a number when it began, not behind one that was not yet inserted when it ended, and it has found the version that the writes up to there leave |
| StoreLinear.PlacedInTime | DB.cpp:289-388 | Calls sorted by their places, a `put` before the calls of `get` behind it, respect real time |
| StoreLinear.PutBefore | DB.cpp:289-388 | In the order that the places give, the puts before a `get` are exactly the writes up to its place, in the order of their numbers |
| StoreTheorems.OnlyInsertsChangeTheMap | DB.cpp:63-388 | In every reachable state, for every step of every thread and every key: what an instantaneous search shows for the key changes only at the memtable insert of a write of that key, and then to that write, unless it is the empty key meeting an empty memtable |
| StoreTheorems.SearchIsCurrent | DB.cpp:345-388 | An instantaneous search equals the fold of what became of the writes inserted so far, deleted and missing keys being alike |
| StoreTheorems.SearchShowsWrites | DB.cpp:345-388 | For every key that is not empty, in every reachable state: an instantaneous search shows what the inserted writes, performed in order, leave |
| StoreTheorems.NothingLost | Skiplist.cpp:243-250 | Whatever writes of the empty key are lost, the history and the writes agree on every other key |
| StoreTheorems.ReportedIsExact | DB.cpp:350-366 | The string handed out tells value from no value exactly if the entry is not a live empty value |
| StoreTheorems.AnswersAreExact | DB.cpp:300-388 | In every run without empty values, the string that a finished `get` hands out tells exactly what an instantaneous search shows at some instant of the call |
| StoreTheorems.TablesTileTheHistory | DB.cpp:81-184 | Deepest level and oldest table first, the tables tile the published history; each stands for its interval, exactly or, if it reaches back to the first write, up to tombstones; a listed merge duplicates only the four-table front of the level above it |
| StoreTheorems.ChosenPrefixIsStable | DB.cpp:142-184 | The four tables chosen for a merge are still the front of their level when it is added, whatever was appended meanwhile |
| StoreTheorems.DroppingTombstonesIsSafe | DB.cpp:150-156 | When a merge drops tombstones, no deeper level holds a table, the merge reaches back to the first write, and every other live table is newer than all it merges |
| StoreDepth.DropsIffDeepest | DB.cpp:150-150 | In every reachable state a merge under way drops tombstones if and only if no deeper level holds a table |
| StoreDepth.MergeIsNewest | DB.cpp:150-170 | What a compactor lists has, for every key, the version in the newest of the four oldest tables of its level that has one, unless that is a tombstone and no deeper level holds a table: then nothing |
| StoreDepth.MaximumIsDepth | DB.cpp:188-188 | In every reachable state without a merge just listed, the shared maximum is the deepest level that holds a table, or 0 |
| StoreTheorems.LogsDecode | WAL.cpp:28-35 | In every reachable state both logs are whole records: of the writes since the last swap, and of the frozen writes or of none |
| StoreTheorems.LogsCoverMemory | DB.cpp:331-338 | The record lists whose encodings are the inactive and the active log, replayed over the published tables, give for every non-empty key every inserted write and at most one more |
| StoreTheorems.FlusherSeesStableMemtable | DB.cpp:64-105 | From wakeup until `inactive_flushing` is cleared, `active` does not change, and only the flusher's own clearing touches the frozen memtable and its log |
| StoreTheorems.SwapFindsEmptyPair | DB.cpp:275-283 | The memtable and the log that a swap makes active are empty |
| StoreTheorems.WriterIsNeverForgotten | DB.cpp:264-273 | A waiting writer has a token set, or the flusher that owes it one is awake or has been woken |
| StoreTheorems.NoLostWakeup | DB.cpp:109-136 | A sleeping compactor whose lowest level holds four tables has a signal pending, or its producer stands between append and release |
| StoreTheorems.UpperLevelsAreDrained | DB.cpp:136-200 | While the third compactor sleeps, levels 3 to 6 are below four tables |
| StoreTheorems.StuckMeansDone | DB.cpp:63-286 | If no background thread can move (and no search holds `active_lock`), every delivered write is inserted and acknowledged, and the table counts of levels 0 to 6 are the base-4 digits of the number of flushes, level 7 holding the quotient |
| StoreProgress.WorkIsBounded | DB.cpp:63-286 | In every run, whatever the interleaving, writer, flusher and compactors together have taken at most 41 d + 36 sections when d writes were handed over: every flush, merge, wakeup and signal is paid for by a write |
| StoreProgress.EveryScheduleDrains | DB.cpp:63-286 | While clients begin nothing, every schedule of the threads from any reachable state ends after a number of steps bounded by that state, and where it ends every delivered write is inserted and acknowledged and all background threads sleep |
| StoreProgress.SomeScheduleDrains | DB.cpp:63-286 | From every reachable state such a schedule exists: no delivered write is ever stranded |
| StoreProgress.BackgroundLowersRank | DB.cpp:63-286 | Every section of writer, flusher and compactors lowers a rank of states, merges because three tables disappear, the others because what they signal weighs less than what they leave |
| Rounds.WakeupMerges | DB.cpp:120-185 | In every run, a compactor that takes its signal while its lowest level holds four tables does not sleep again before it has listed the merge of exactly the four oldest one level down, without tombstones exactly if no deeper level holds a table, and then removed exactly them |
| Rounds.RemovedWasMerged | DB.cpp:142-184 | In every run, on every level: the tables a compactor removes are the four whose merge it listed one level down, and between the two it does nothing else |
| Rounds.SignalMoves | DB.cpp:109-200 | In every reachable state, for every step: a compactor's signal is released exactly by the flusher on four tables at level 0, by the compactor above that has filled the level, and by itself on eight tables, and taken exactly by its own wakeup |
| Rounds.GoesOnIffFull | DB.cpp:131-200 | Where a compactor decides whether to go on, it does if and only if the level in question holds four tables and is not the last; it merges a level it owns and wakes the owner of one it does not |
| StoreTheorems.IdleCountsAreDigits | DB.cpp:81-200 | Whenever flusher and compactors sleep with no signal pending, the table counts are the base-4 digits of the number of flushes |
| StoreTheorems.TablesCountFlushes | DB.cpp:81-184 | In every reachable state the level sizes weighted by powers of four, sources of a listed merge left out, add up to the number of flushes |
| StoreTheorems.SemaphoresStayBinary | DB.cpp:98-105 | `start_flush` and `resume_writes` never exceed one, and neither is released while set |
| StoreWakeups.CountIsBase4 | DB.cpp:136-184 | Levels below four tables whose weighted sum of sizes is n hold the base-4 digits of n |
| StoreWakeups.MergeKeepsWeight | DB.cpp:166-184 | A merge of four tables one level down keeps the sum of size(L) * 4^L |
| StoreWakeups.PublishRaisesWeight | DB.cpp:81-88 | A publication raises that sum by one |
| StoreWakeups.FlusherKeepsWakeups | DB.cpp:81-112 | Publish-then-release never leaves a compactor without a wakeup it needs |
| StoreWakeups.CompactorKeepsWakeups | DB.cpp:129-200 | Nor do the re-release at eight tables and the hand-over to the next compactor |
| StoreCompaction.MaximumIsTruthful | DB.cpp:150-188 | If a compactor's level equals the shared maximum, every deeper level is empty |
| StoreCompaction.CompactorsKept | DB.cpp:119-205 | Every compactor step keeps the bounds of all three compactors' program points and the truth of the non-atomically raised maximum |
| StoreTables.DropReachesBack | DB.cpp:150-156 | If the deeper levels are empty, the oldest table of the merge starts at the first write |
| StoreTables.MergedTableOk | SSTableMerger.cpp:6-53 | The merge of four adjacent tables stands for the union of their intervals, with tombstones left out only where clients cannot tell |
| StoreTables.AddKeepsTiling | DB.cpp:158-170 | Listing the merged table keeps the tiling |
| StoreTables.RemoveKeepsTiling | DB.cpp:172-184 | Removing its four sources keeps the tiling |
| StoreTables.PublishKeepsTiling | DB.cpp:81-88 | Publishing a flushed table extends the tiling by its interval |
| Tiling.MergeOk | SSTableMerger.cpp:6-53 | Newest-wins over adjacent intervals of the history is the replay of the joined interval |
| Tiling.MergeTiles | DB.cpp:158-184 | Replacing four tables by their merge one level down keeps the tiling |
| Tiling.ScanChain | DB.cpp:377-385 | Scanning a level newest first finds the newest version in the level's interval, or shows that the interval does not mention the key |
| StoreReaders.LevelStep | DB.cpp:377-385 | A search that has found nothing above level l and looks at one snapshot of level l stays within the versions of its own lifetime, whatever moved between levels |
| StoreReaders.ReaderMerge | DB.cpp:158-184 | A merge under way cannot hide a version from a search standing on any level |
| StoreReaders.ReaderPublish | DB.cpp:81-88 | Nor can a publication |
| StoreReaders.ReaderSwap | DB.cpp:275-279 | Nor can a swap of the memtables |
| StoreMemory.MemorySideKept | DB.cpp:63-105 | Every step of every thread keeps the handshake between writer and flusher, the contents of both memtables and of both logs |
| StoreSafety.InvKept | DB.cpp:63-388 | The store invariant survives every enabled step of every thread |
| StoreSafety.RunInv | DB.cpp:63-388 | The store invariant holds in every state of every run |
| StoreModel.WriterApply | DB.cpp:208-286 | The writer's atomic sections change only the pipeline, the memtables, their logs and the handshake |
| StoreModel.FlusherApply | DB.cpp:63-113 | The flusher's atomic sections, and what they leave alone |
| StoreModel.CompactorApply | DB.cpp:119-205 | A compactor section touches its own program point, the level it merges from or into, the wakeups and the maximum, and nothing else; what it decides on the way is stated by `StoreDepth.DropsIffDeepest`, `Rounds.GoesOnIffFull` and `Rounds.SignalMoves` |
| StoreModel.ClientApply | DB.cpp:289-388 | The atomic sections of `put` and `get` touch nothing but the queue and the caller's own search |
| Db.DB.Get | DB.cpp:300-388 | The call as a program, other threads running between its sections: the string handed out is that of what the search has found, and this is the version of the key at an instant of the call with every earlier received write in place, or nothing for a key then deleted or unwritten; whatever is found was written to the key; without empty values the string tells what an instantaneous search shows; it gives up only while the target is not completed |
| Db.DB.Search | DB.cpp:345-388 | Active memtable, inactive memtable, levels 0 to 7: ends with an answer after a bounded number of looks |
| Db.DB.AwaitCompleted | DB.cpp:318-326 | Reports the target reached if and only if it is completed, and gives up only after as many waits as it was given |
| Db.DB.Put | DB.cpp:289-294 | Goes through exactly if no other producer holds the mutex; then it numbers and delivers exactly one write more, behind all others, and its number is the new length of the queue; otherwise nothing changes |
| Db.DB.WriterRound | DB.cpp:208-231 | A batch is taken, inserted write by write, each followed by the flush check with its own outcome of the size test, and then acknowledged; from then on an instantaneous search shows exactly the acknowledged writes; the round stops short only blocked on the flusher or on a search, after as many waits as it was given |
| Db.DB.InsertBatch | DB.cpp:218-221 | The loop over the jobs: one insertion after the other, with its flush check, until the batch is inserted |
| Db.DB.Insert | DB.cpp:331-341 | Log, memtable, flush check, section by section: exactly one write is inserted, and the memtables are swapped if and only if the size test says so; not finished only if a flush was due and is blocked |
| Db.DB.CheckAndHandleFlush | DB.cpp:257-286 | Finished, it has swapped the memtables if and only if the size test says so, by the sections of the code in their order, with nothing inserted or acknowledged on the way; not finished only if a flush is due and blocked on the flusher or on a search |
| Db.DB.AwaitFlusher | DB.cpp:264-273 | The wait for `resume_writes`: not over exactly while the token is missing; the token is taken and nothing else, and `active` stays |
| Db.DB.SwapMemtables | DB.cpp:275-283 | `active` flips at an instant when no search holds the lock and the pair that becomes active is empty, `start_flush` goes from 0 to 1, and the new log is opened empty, in this order; not done exactly while a search holds the lock |
| Db.DB.HandleFlush | DB.cpp:262-284 | A due flush: the wait if the last one is not over, then the swap |
| Db.DB.HandOver | DB.cpp:275-283 | The three sections of the swap and what each leaves behind |
| Db.DB.WriterDoes | DB.cpp:208-286 | One section of the writer, then other threads: the state right behind the section, and what the others leave alone |
| Db.DB.MemtableFlush | DB.cpp:63-113 | A round takes place exactly if `start_flush` is set, and consists of the seven sections of the code in their order: one table is published, holding what the frozen memtable held at the wakeup, then memtable and log are empty as `inactive_flushing` is lowered, a waiting writer and only such a one gets its token, and the first compactor is woken exactly if level 0 holds four tables; an instantaneous search shows the inserted writes |
| Db.DB.FlushFrozen | DB.cpp:74-112 | The round behind the wakeup: its seven sections in their order and what publication, end of flush and signal leave behind |
| Db.DB.BuildFromMemtable | DB.cpp:67-79 | The signal is taken, and the table is built from a memtable that no other thread changes |
| Db.DB.FlushRest | DB.cpp:91-112 | Behind the publication, in this order: memtable cleared, log cleared, end of flush, look at level 0; with the effects of `FinishFlush` |
| Db.DB.FinishFlush | DB.cpp:98-112 | As `inactive_flushing` is lowered frozen memtable and log are empty; `resume_writes` is 1 if the writer waits and 0 otherwise; `start_compactor` is released if and only if level 0 holds at least four tables |
| Db.DB.PublishFrozen | DB.cpp:81-88 | One table more on level 0, with the contents of the frozen memtable, memtables untouched |
| Db.DB.FlusherDoes | DB.cpp:63-113 | One section of the flusher, then other threads: the state right behind the section, and what the others leave alone |
| Db.DB.CompactorRound | DB.cpp:119-205 | A round takes place exactly if the signal is set, and starts by taking it; if the lowest level then holds four tables, the four oldest are merged into the next level and then removed; it ends because the next level has too few tables, there is no deeper level, or the next compactor was signalled; then no merge is owed without a wakeup under way, and the map shown is the inserted writes |
| Db.DB.CompactorSection | DB.cpp:125-200 | An awake compactor is never stuck, takes the section that its program point asks for, finds the tables it needs, comes closer to sleep, and falls asleep only for one of the three reasons |
| Db.DB.Do | DB.cpp:63-388 | One atomic section extends the run and keeps the invariant |
| Db.DB.Others | DB.cpp:63-388 | Any other threads' steps keep the invariant and leave alone what only this thread changes |
| SkipLists.SkipList.Insert | Skiplist.cpp:243-260 | For every height of a new node: the map gains exactly one version; the one loss is an empty key written to an empty list, which is taken for the head; a new key adds one node of that height, an old one none |
| SkipLists.SkipList.Search | Skiplist.cpp:233-241 | The version the map holds for the key, tombstones included, or none |
| SkipLists.SkipList.GetPredecessors | Skiplist.cpp:197-215 | Terminates with the last smaller node of every level |
| SkipLists.SkipList.ConstructNode | Skiplist.cpp:7-33 | A node laid out behind all others, with the value appended to the value table if it is live |
| SkipLists.SkipList.AddVal | Skiplist.cpp:35-48 | Only the node's value index changes |
| SkipLists.SkipList.UpdateVal | Skiplist.cpp:50-74 | Tombstone byte, value slot and byte counter after an update; no other node changes |
| SkipLists.SkipList.SetNext | Skiplist.cpp:76-79 | Only one pointer of one node changes; every other node keeps its bytes |
| SkipLists.SkipList.GetNext | Skiplist.cpp:81-88 | Reads the pointer of a node on a level it has |
| SkipLists.SkipList.GetKey | Skiplist.cpp:90-100 | Reads the key by way of the node's height |
| SkipLists.SkipList.GetData | Skiplist.cpp:125-155 | Reads key and version |
| SkipLists.SkipList.LinkNode | Skiplist.cpp:255-258 | The linking loop produces the relinked lists |
| SkipLists.SkipList.Clear | Skiplist.cpp:267-273 | Back to the empty map with a zero counter |
| SkipLists.SkipList.constructor | Skiplist.cpp:185-190 | The empty map |
| SkipSpec.InsertedLinked | Skiplist.cpp:243-260 | Linking behind the predecessors keeps every level strictly increasing, complete and nested |
| SkipSpec.UpdateKeepsSlots | Skiplist.cpp:50-74 | Value indices stay in bounds and shared by no two nodes |
| SkipSpec.UpdateHolds | Skiplist.cpp:50-74 | An update in place changes the map at one key |
| SkipSpec.InsertHolds | Skiplist.cpp:252-258 | A new node adds one key to the map |
| SkipSpec.AheadShrinks | Skiplist.cpp:203-212 | Following a pointer leaves strictly fewer entries ahead: no list has a cycle |
| SkipSpec.SuccessorDecides | Skiplist.cpp:234-240 | The successor of the level-0 predecessor is the key's node, or the key is absent |
| SkipSpec.WalkMeets | Skiplist.cpp:169-174 | Following a level from any node meets exactly the later entries of that level |
| SkipSpec.WalkSorted | Skiplist.cpp:169-174 | Keys strictly increase along every level |
| SkipSpec.LevelsNest | Skiplist.cpp:255-258 | Each level's list is a sublist of the level below |
| Arena.AppendKeepsLayout | Skiplist.cpp:10-31 | A node appended to the arena is disjoint from all others and leaves them intact |
| Arena.WriteKeepsLayout | Skiplist.cpp:76-79 | A write inside one node's range changes no other node |
| TableBuilder.SSTableBuilder.WriteEntry | SSTableBuilder.cpp:29-49 | Record, offset, sparse index and filter all advance by exactly one record |
| TableBuilder.SSTableBuilder.WriteIndex | SSTableBuilder.cpp:51-78 | The finished file has the table format, every stored offset being right below 2^64 bytes |
| TableBuilder.SSTableBuilder.Flush | SSTableBuilder.cpp:12-20 | The file lists the memtable's entries in strictly increasing order of their keys' bytes (`Bytes.LessMeans`), and their replay is the memtable's map |
| TableBuilder.ContentsSorted | Skiplist.cpp:157-182 | An iterator yields strictly increasing keys |
| TableBuilder.ContentsReplay | Skiplist.cpp:157-182 | An iterator yields every entry of the map and nothing else |
| TableFormat.PartsInPlace | SSTableBuilder.cpp:51-69 | The footer leads to index, filter and records |
| TableFormat.BookmarkInPlace | SSTableReader.cpp:65-81 | A parser behind n bookmarks reads the next one |
| TableFormat.WordInPlace | SSTableReader.cpp:28-36 | A parser behind n filter words reads the next one |
| TableFormat.LookupAt | SSTableReader.cpp:108-131 | In a sorted table a record is what its key is looked up to |
| TableReader.MmapAndFillIndex | SSTableReader.cpp:39-83 | Footer and index as written, for any number of bookmarks |
| TableReader.SSTableReader.constructor | SSTableReader.cpp:16-18 | A reader over the filter that was filled during writing |
| TableReader.SSTableReader.Reload | SSTableReader.cpp:20-37 | A reader whose filter, read back from the file, still has every added key |
| TableReader.LoadFilter | SSTableReader.cpp:23-36 | The reloaded words are the written ones |
| TableReader.UpperBound | SSTableReader.cpp:89-90 | The first bookmark with a greater key, by binary search |
| TableReader.SSTableReader.FindKey | SSTableReader.cpp:85-134 | For every key: exactly the version in the table, tombstone and absence told apart as the code reports them |
| TableReader.SSTableReader.ScanBlock | SSTableReader.cpp:108-133 | The block scan with its early stop decides the key |
| TableReader.SSTableReader.GetNext | SSTableReader.cpp:140-166 | The cursor delivers the records in order, then nothing |
| TableReader.BlockBounds | SSTableReader.cpp:89-97 | The key can only lie in the block before the first greater bookmark |
| TableReader.FilteredOut | SSTableReader.cpp:87-87 | A key the filter rejects is not in the table |
| TableMerger.SSTableMerger.constructor | SSTableMerger.cpp:6-47 | For any number of sorted inputs: terminates with a strictly sorted table whose map is the newest-wins union, without deleted keys if tombstones are removed |
| TableMerger.Scan | SSTableMerger.cpp:10-36 | One pass finds the least key, held by one input alone, and loses no key by clearing older duplicates in mid-scan |
| TableMerger.SSTableMerger.WriteEntry | SSTableMerger.cpp:50-53 | Writes the record unless it is a tombstone to be removed |
| MergeSpec.DropKeeps | SSTableMerger.cpp:27-29 | Clearing the older of two equal keys leaves the newest-wins union |
| MergeSpec.EmitKeeps | SSTableMerger.cpp:38-41 | Emitting the least key keeps order and union |
| MergeSpec.KeptMeans | SSTableMerger.cpp:50-53 | Leaving out tombstones removes exactly the deleted keys and keeps the order |
| Tables.FlushToReader | DB.cpp:74-88 | The published reader stands for the memtable's map, with a filter of the given size and number of hashes |
| Tables.MergeToReader | DB.cpp:152-161 | The published reader stands for the merge of its inputs, which stay valid, read to their ends |
| Tables.FlushAndFind | DB.cpp:74-88 | Round trip: memtable to bytes to lookup, for every key |
| Tables.FlushAndReload | DB.cpp:74-88 | Round trip through the bytes alone, filter included: a reader built from the file finds what the memtable held, for every key |
| Refinement.Search | DB.cpp:345-388 | The search over two skip lists and the files of all levels, performed in one instant, answers what the protocol's search on maps answers |
| Refinement.SearchInMemtable | DB.cpp:345-367 | The active skip list hides the inactive one; a tombstone is reported as the empty string |
| Refinement.SearchLevels | DB.cpp:375-387 | Level by level, the first version found decides |
| Refinement.SearchLevel | DB.cpp:381-384 | Newest file first, the first version found decides |
| Refinement.MergeOldest | DB.cpp:140-161 | The four oldest files merged give a file that stands for the protocol's merged table; the level still stands for its tables, and the other files are not read |
| Refinement.InsertWrite | Skiplist.cpp:243-260 | The insertion into the skip list is the protocol's memtable step, the loss of an empty key included |
| Refinement.RecoveredShowsLogged | WAL.cpp:48-61 | Replaying the two logs of any reachable state into an empty memtable, over the published tables, shows every logged write of a non-empty key |
| Codec.EncodeRecord | helper.cpp:17-39 | The bytes of a record |
| Codec.DecodeAt | helper.cpp:96-134 | Decoding returns the encoded record and its length |
| Codec.DecodeNext | helper.cpp:65-92 | From a stream: the next record, or the end |
| Records.EncodeAllInjective | WAL.cpp:28-35 | Different record sequences have different bytes |
| Records.Fields | helper.cpp:96-134 | What a parser at a record reads field by field |
| Wal.WAL.Append | WAL.cpp:28-35 | The log gains one record |
| Wal.WAL.Recover | WAL.cpp:48-61 | Every record of the log is inserted, in order |
| Wal.WAL.Clear | WAL.cpp:69-74 | The log is empty |
| Wal.ReplayIntoEmpty | WAL.cpp:56-61 | Replay into an empty memtable gives the logged map if and only if no empty-key write comes before all other keys, or a later empty-key write repairs it |
| RingSpec.RunIsSound | RingBuffer.h:27-53 | For every interleaving: free, stored, incoming and claimed slots add up to N, every item carries its place in the queue, nothing is ever taken back |
| RingSpec.DeliveredInSequence | RingBuffer.h:27-53 | For every interleaving: what was delivered carries the numbers 1, 2, 3 and so on, and is followed by the batch in the making and by at most N stored items |
| RingSpec.QueueHoldsHanded | RingBuffer.h:30-37 | For every interleaving: the queue holds exactly the items handed in, in the order in which the mutex was taken |
| RingSpec.StepDelivers | RingBuffer.h:52-52 | Only the end of a batch delivers anything, and it delivers the batch |
| RingSpec.LastNumber | RingBuffer.h:46-50 | The last job of a batch carries the number of jobs taken so far |
| RingBuffers.RingBuffer.constructor | RingBuffer.h:21-25 | N empty slots, next number 1 |
| RingBuffers.RingBuffer.AcquireEmpty | RingBuffer.h:28-28 | Refused exactly when no slot is free |
| RingBuffers.RingBuffer.TakeNumber | RingBuffer.h:30-32 | The job about to be put carries the announced number, its place in the sequence of all jobs |
| RingBuffers.RingBuffer.Put | RingBuffer.h:34-37 | The numbered job is stored behind all others, in a slot that holds nothing unread |
| RingBuffers.RingBuffer.AcquireFull | RingBuffer.h:41-41 | Refused exactly when nothing is stored |
| RingBuffers.RingBuffer.Take | RingBuffer.h:47-49 | The oldest unread job joins the batch |
| RingBuffers.RingBuffer.TryMore | RingBuffer.h:50-50 | Goes on if and only if the batch is below N / 2 items and something is stored |
| RingBuffers.RingBuffer.Release | RingBuffer.h:52-52 | All taken slots are returned at once and the batch is delivered |
| RingBuffers.RingBuffer.Consume | RingBuffer.h:40-53 | With producers running between its steps: the state is that of its steps and theirs, the batch is the next stretch of the queue, at most N / 2 items (at least one slot), shorter only if nothing more was stored when it ended, and empty only if nothing is stored; its last job carries the number of all jobs taken |
| RingBuffers.RingBuffer.Perform | RingBuffer.h:27-53 | One step of any thread does to the code what it does to the state, and delivers what the state says |
| RingBuffers.RingBuffer.Run | RingBuffer.h:27-53 | For every interleaving of any number of producers with the consumer: the code ends in the state that the steps lead to, and has delivered what that state says |
| StoreQueue.QueueStepIsEnabled | RingBuffer.h:27-53 | What the ring buffer does, the protocol's numbering, delivery and batches allow: numbers in order, batches of at most half the buffer |
| StoreQueue.QueueStepKeepsCoupled | RingBuffer.h:27-53 | Taking a number, storing and handing over a batch are the protocol's steps on its pipeline; every other step of the buffer is invisible to it |
| StoreQueue.JointRunIsRun | DB.cpp:208-294 | Every run of the store with its ring buffer is, step by step, a run of the protocol |
| StoreQueue.WritesCarryNumbers | RingBuffer.h:31-31 | The protocol's n-th write is the item that carries number n |
| StoreQueue.TargetIsHighest | DB.cpp:318-318 | What `get` waits for is the highest announced number |
| StoreQueue.JobInHand | DB.cpp:218-221 | The writer inserts the jobs of its batch in order, each with the next number |
| StoreQueue.CompleteStoresLastNumber | DB.cpp:217-226 | What is acknowledged is the number that the last job of the batch carries, which is the count of all jobs taken |
| StoreQueue.ReadYourWrites | DB.cpp:289-329 | End to end, for every run of store and ring buffer: a `get` that begins once a number has been given out finds the version of its key at some instant of the call at which the write carrying that number, and all before it, are inserted |
| Bloom.GetHashes | helper.cpp:136-144 | The two hashes, the second made odd |
| Bloom.MakeOdd | helper.cpp:141-141 | The next odd word, or the word itself |
| Bloom.SeedsRecovered | helper.cpp:138-141 | The seeds read off the two hashes of any key are 0, and 1 up to the bit that makes the second odd |
| Bloom.TwoSeedsDiffer | helper.cpp:136-141 | The two hashes differ before the second is made odd |
| Bloom.ProbeIsResidue | helper.cpp:160-165 | Neither 64-bit arithmetic, nor the mask, nor the cast to 32 bits changes the probed residue |
| Bloom.ProbeBelow | helper.cpp:160-166 | For every table size, a power of two or not, a probe lies inside the table |
| Bloom.ProbesDistinct | helper.cpp:160-165 | Two probes of a key hit the same bit if and only if their numbers agree modulo the table size cut to 32 bits |
| Bloom.AddedKeysPass | helper.cpp:182-192 | No false negatives |
| Bloom.TableDependsOnKeys | helper.cpp:156-180 | The bit table is a function of the set of added keys |
| Bloom.UpperPartUnused | helper.cpp:160-166 | In a table of more than 2^32 bits no bit beyond the first 2^32 is ever set |
| Bloom.BloomFilter.Add | helper.cpp:156-180 | Afterwards the set bits are exactly the probes of the added keys |
| Bloom.BloomFilter.Contains | helper.cpp:182-192 | True if and only if all probes are set |
| Bloom.BloomFilter.Set | helper.cpp:194-197 | Sets one bit and no other |
| Bloom.BloomFilter.Get | helper.cpp:199-202 | Tests one bit |
| Bloom.BloomFilter.constructor | helper.h:43-43 | For every size no bit is set; the filter is fit for use exactly if the size is a positive number of whole words |
| Murmur.MurmurHash3_x86_32 | MurmurHash3.cpp:94-146 | The loop computes the hash function, tail and finalization included |
| Murmur.HashIsBijectiveInSeed | MurmurHash3.cpp:94-146 | For keys of any length the hash is a bijection in its seed, with an explicit inverse |
| Murmur.OneBlockNeverCollides | MurmurHash3.cpp:110-121 | Equal-length keys differing in exactly one aligned block never collide |
| Murmur.OnlyTailNeverCollides | MurmurHash3.cpp:124-136 | Equal-length keys differing only in the tail never collide |
| Murmur.FmixIsBijective | MurmurHash3.cpp:68-77 | The finalization is a bijection |
| Murmur.RoundIsBijective | MurmurHash3.cpp:114-120 | A round is a bijection of the state |
| Murmur.RoundSeparatesBlocks | MurmurHash3.cpp:114-120 | From one state, different blocks lead to different states |
| Murmur.RotlUndone | MurmurHash3.cpp:34-37 | Rotations undo each other |
| Murmur.RotlValue | MurmurHash3.cpp:34-37 | A rotation by r is the lower 32 - r bits times 2^r plus the upper r bits |
| Murmur.BlockValue | MurmurHash3.cpp:94-146 | A value of the hash for one whole block, which fixes multipliers, rotations and the added constant of a round |
| Murmur.TailValue | MurmurHash3.cpp:94-146 | A value of the hash for a tail of one byte |
| Bits.MaskIsRemainder | helper.cpp:160-164 | Masking with 2^k - 1 is the remainder modulo 2^k |
| Bytes.LessIsStrictTotalOrder | helper.cpp:5-11 | The byte order of keys is a strict total order |
| Bytes.LessMeans | Skiplist.cpp:205-205 | One string is before another if and only if at the first position at which they differ it ends or has the smaller byte |
| Bytes.ByteAt | helper.cpp:17-39 | Integers are stored least significant byte first |

## Left out

- Recovery of the whole store and parsing of file names (`DB::recover`), which the repository itself calls
  non-functional; only the replay loop of the log and the reloading of a table's filter are modelled.
- Construction and shutdown of threads, `RingBuffer::stop`, `preserveTable`: every statement is about running states.
- fsync, fopen, mmap, directories: files are byte sequences and writes succeed; nothing is said about torn writes.
- Weak memory orders: atomics, locks and semaphores are sequentially consistent steps, and a section under a lock is
  one step. Building and merging a table read only data that no other thread changes, so each is one step as well.
- Fairness and real time: a scheduler may starve a thread, so `Db` gives waiting loops a number of notifications to wait
  for and lets them return unfinished. How many sections the threads need behind the last write, and that every
  schedule that is not cut short acknowledges all delivered writes, is `StoreProgress`.
- Sequence numbers beyond 2^64: numbers are stated on 64 bits, and the protocol counts writes without bound.
- The trigger of a flush: the size test is an arbitrary answer, so safety holds for any trigger.
- SkipLists.SkipList.Insert: states the byte counter for new keys only, because an update subtracts the old value even
  if the node is already a tombstone, so that the counter is no measure of the live bytes
  (`SkipLists.SkipList.UpdateVal` states what it becomes); the height of a new node is an argument in place of the
  random number.
- The bytes of tables in the protocol, where a table is its map with its history; that a merge or a flush in bytes
  stands for that map is `Tables.MergeToReader` and `Tables.FlushToReader`.
- Keys of 2^31 bytes or more, which do not fit the `int` length that the hash takes; arenas of 2^32 bytes or more.
- Use of a Bloom filter whose size is not a positive multiple of 64 bits, where the code leaves its words; sizes that
  are no power of two are covered, except by `Bloom.ProbesDistinct`.
- False-positive rates and the distribution of node heights.
- `MurmurHash3_x86_128`, `MurmurHash3_x64_128` and `fmix64`, which the store never calls; console output.
