# A model of the storage engine and the game server cores

This project models, in Dafny, the embedded page database of `znet/common/db.h` and seven smaller cores of the
repository, and proves what they keep. Code that works in place is a class whose methods are proved against a
specification on values; the properties of the specification are lemmas.

**The database.** A table is a B-tree of pages with room on both sides of the used slots, whose entries name records in
slotted data pages.

- `IndexModel`, `IndexSteps`, `IndexLoops`, `IndexFill`, `IndexWalk` describe the pages as values. The invariant says that
  every node covers an interval of one ordered list G, that every child knows the slot it hangs in, and how full pages are.
  Every restructuring step (slide, cut, publish, borrow left or right, join, drop of the root, growth and loss of a leaf
  entry) is shown to keep it; all but growth, loss and overwriting leave G as it is.
- `IndexTree` is the code: pages with slot arrays and the methods of `Page` that write them slot by slot. `PageSpace` is the
  free-page list.
- `DataModel`, `RecordModel`, `DataStore` are the data pages: slices that tile a page, doubly linked bucket lists of free
  slices, coalescing, records that run over chains of slices and the overwriting of their values.
- `Keys` is the comparison of keys, down to the word steps.
- `MapModel` and `Database` put these together: a table refines a finite map from byte strings to byte strings; `Session`
  states it for whole sequences of requests.
- `CheckpointModel`, `LogReplay`, `Recovery`, `Checkpoint`: the multi-table redo log and the restoring of an older
  checkpoint from the chained log files. The story of the log files is the list of their finished records. A machine that
  stops between two page writes is a disk whose budget of writes is used up: later writes have no effect. The methods are
  proved for every budget.
- `History`: runs of checkpoints and restarts, each stopped after any number of writes, and what a restore gives after
  them. `UnchainedLog` is one of them, with a redo.
- `CacheModel`, `PageCaching`: the page hash, its order of use, eviction and the snapshot of a checkpoint.

**The other cores.** `ChunkModel` and `FixAllocator` (fixed-size allocator), `LockTable` (deadlock detection),
`References` (hard and weak references), `Variant` (printing and parsing), `OpenList` and `AStar` (grid search), `Graph`
(renumbering graph), `RwLock` (spinning reader/writer lock). For threads, every atomic step is a method, and a run is any
sequence of steps.

Where the code and a plain reading of its purpose differ, the model follows the code and the exact condition is proved:

- an empty key is stored as a long one and never found again (`Database.Table.Compare`, `Session.EmptyKeyTwice`), and a
  key that is 2 GiB or more longer than a stored beginning of it is compared with the wrong sign (`Keys.LengthsDecide`);
- after 203 checkpoints without a rotation a restart reads the current item behind its page
  (`Checkpoint.VerdictIff`, `Checkpoint.FullPageMisread`);
- behind a redo DBCollection::init() goes on with a logger that opened no log file; its first checkpoint ends the program
  or goes to a log file that no other one names, so that a restore of an older copy ends in front of it
  (`History.CopyIff`, `History.RedoCuts`, `UnchainedLog.EndsAtSeven`);
- a restore that was stopped between two tables is not completed by a second one (`LogReplay.RepeatedIff`);
- the search of the allocator misses a chunk that starts just where another one ends, and free() throws
  (`FixAllocator.FoundIff`, `FixAllocator.FreeingBlock`, `FixAllocator.TouchingChunks`);
- negative numbers and an undef inside a list, or as a key, are not read back (`Variant.ReadBackExactly`);
- the grid search goes by the Manhattan distance, which exceeds diagonal ways: a path it finds costs at most 2 / 1.414
  times the length of any route (`AStar.NoWorse`).

The model takes a 64-bit build: size_t and time_t have eight bytes, page indices four.

## Model

| member | source | states |
|---|---|---|
| `IndexModel.SameGap` | znet/common/db.h:510-566 | In a well-formed tree two pages of one level whose key intervals share a gap are the same page. |
| `IndexModel.RankUnique` | znet/common/db.h:519-529 | No two slots of the tree stand for the same position of the tree order: every entry is stored once. |
| `IndexSteps.SlidKeepsInv` | znet/common/db.h:589-620 | Moving the used slots of a page inside its buffer, with the places of its children, keeps the tree and its content. |
| `IndexSteps.Cutting.Pends` | znet/common/db.h:570-587 | Cutting a full page leaves exactly the middle entry and the new right half to be published in the parent; the content of the tree is unchanged. |
| `IndexSteps.Insertion.KeepsInv` | znet/common/db.h:589-620 | Publishing a cut in the parent, on the left or on the right of its content, completes the tree with the same content. |
| `IndexSteps.Rotation.ToLeftKeepsInv` | znet/common/db.h:701-760 | Borrowing through the separator from the right neighbour keeps the tree and its content, on leaves and on inner pages. |
| `IndexSteps.Rotation.ToRightKeepsInv` | znet/common/db.h:761-818 | Borrowing through the separator from the left neighbour keeps the tree and its content. |
| `IndexSteps.Merging.KeepsInv` | znet/common/db.h:621-700 | Joining two neighbours around their separator, whichever of them takes the content, keeps the tree and its content. |
| `IndexSteps.CollapseKeepsInv` | znet/common/db.h:689-697 | An inner root without entries gives way to its only child, and the tree keeps its content. |
| `IndexSteps.LeafGrowth.KeepsInv` | znet/common/db.h:919-941 | A new leaf entry appears at exactly its place of the tree order; all other entries keep theirs. |
| `IndexSteps.LeafLoss.KeepsInv` | znet/common/db.h:829-855 | Exactly the entry at the given place of the tree order disappears. |
| `IndexSteps.Overwrite.KeepsInv` | znet/common/db.h:819-827 | Exactly the entry at the given place of the tree order is replaced. |
| `IndexFill.CutSized` | znet/common/db.h:570-587 | After a cut both halves have INDEXMINL or INDEXMINR entries, so only the parent may be too full. |
| `IndexFill.MergedSized` | znet/common/db.h:621-700 | After a join the joined page is within its bounds and only the parent may be one entry short. |
| `IndexFill.MinimalNeighbour` | znet/common/db.h:829-855 | The neighbour of a page that is one entry short has at least INDEXMINR entries. |
| `IndexFill.ParentHasEntry` | znet/common/db.h:678-698 | Above a short inner page stands a parent with an entry, so a neighbour to borrow from or join with exists. |
| `IndexWalk.TreeMeaning` | znet/common/db.h:510-566 | The pages mean what the invariant says: the content read slot by slot from the root is the ordered list G, and the pages reached through child fields are exactly those of the tree. |
| `IndexWalk.NextRank` | znet/common/db.h:952-965 | What follows a slot in the tree order: the first slot below the child behind it, the next slot, or what is behind the page. |
| `IndexWalk.UpRank` | znet/common/db.h:952-965 | What follows everything below a child is the parent entry behind it, found through parent_index and parent_pos, or what is behind the parent. |
| `IndexWalk.GapInside` | znet/common/db.h:865-892 | Between two slots of a leaf lies one position of the order, between two slots of an inner page exactly a child; a zero child field tells leaves from inner pages. |
| `IndexWalk.RootSize` | znet/common/db.h:943-950 | The tree is empty exactly if its root page is. |
| `IndexTree.PageCache.constructor` | znet/common/db.h:1164-1182 | A new file has one page, the empty root. |
| `IndexTree.PageCache.SlideUpLeaf` | znet/common/db.h:921-941 | The leaf content moves up inside the page without a change of order. |
| `IndexTree.PageCache.OpenSlotRight` | znet/common/db.h:589-620 | insert_internal on the right part: entry and children are written, and every moved child learns its new place. |
| `IndexTree.PageCache.OpenSlotLeft` | znet/common/db.h:589-620 | insert_internal on the left part, the mirror case. |
| `IndexTree.PageCache.OpenLeaf` | znet/common/db.h:919-941 | The shorter part of the leaf makes room, unless it has none; the page content gains exactly the entry. |
| `IndexTree.PageCache.OpenSlot` | znet/common/db.h:589-620 | insert_internal: the shorter part of the page makes room, unless it has none. |
| `IndexTree.PageCache.CloseSlotDown` | znet/common/db.h:659-667 | A separator and the child behind it leave an inner page from its right part; every moved child learns its new place. |
| `IndexTree.PageCache.CloseSlotUp` | znet/common/db.h:668-677 | A separator and the child behind it leave an inner page from its left part; every moved child learns its new place. |
| `IndexTree.PageCache.CloseLeaf` | znet/common/db.h:829-855 | A leaf entry leaves the page, and the shorter part closes the gap; the other entries keep their order and the child slots stay zero. |
| `IndexTree.PageCache.AllocPage` | znet/common/db.h:1231-1245 | A zeroed page comes from the free-page list, or else from the end of the file; it was in no use before. |
| `IndexTree.PageCache.AllocRootIndexPage` | znet/common/db.h:1255-1260 | A fresh blank page becomes the root above the full one. |
| `IndexTree.PageCache.CutFull` | znet/common/db.h:570-587 | The full page is cut, the root growing first if it is the page; only the publication in the parent is pending. |
| `IndexTree.PageCache.Split` | znet/common/db.h:570-587 | split(): with cuts cascading to the root, the tree is well formed and within its fill bounds again and has the same content. |
| `IndexTree.PageCache.InsertInternal` | znet/common/db.h:589-620 | insert_internal(): the pending cut is published and, if the page is full now, split on. |
| `IndexTree.PageCache.InsertLeaf` | znet/common/db.h:919-941 | insert_leaf(): the tree order gains exactly the entry at the matching position and the tree is well formed and within bounds. |
| `IndexTree.PageCache.MakeRoom` | znet/common/db.h:621-645 | The slots of the joined page are moved to its begin if and only if the sibling would not fit behind them. |
| `IndexTree.PageCache.JoinSiblings` | znet/common/db.h:621-677 | Two neighbours become one page, the other page is freed, the content is unchanged. |
| `IndexTree.PageCache.MergeSibling` | znet/common/db.h:621-700 | merge_sibling(): with merges and borrows cascading to the root, the tree is well formed and within bounds and has the same content. |
| `IndexTree.PageCache.DropRoot` | znet/common/db.h:689-697 | The empty root page is freed and its child is the root. |
| `IndexTree.PageCache.RShrinkLeaf` | znet/common/db.h:735-760 | r_shrink_leaf(): a leaf one entry short is filled from, or joined with, its right neighbour. |
| `IndexTree.PageCache.RShrinkInternal` | znet/common/db.h:701-733 | r_shrink_internal(): the same for an inner page, with the child that moves along. |
| `IndexTree.PageCache.LShrinkLeaf` | znet/common/db.h:795-817 | l_shrink_leaf(): the left neighbour serves the last child of a parent. |
| `IndexTree.PageCache.LShrinkInternal` | znet/common/db.h:761-793 | l_shrink_internal(): the same for an inner page. |
| `IndexTree.PageCache.RemoveLeaf` | znet/common/db.h:829-855 | remove_leaf(): exactly the entry disappears, and the tree is well formed and within bounds. |
| `IndexTree.PageCache.RemoveInternal` | znet/common/db.h:819-827 | remove_internal(): the entry before takes the place of the removed one; together exactly one entry disappears. |
| `IndexTree.PageCache.Replace` | znet/common/db.h:819-827 | Exactly one entry of the tree order is overwritten. |
| `IndexTree.PageCache.Remove` | znet/common/db.h:857-863 | remove(): exactly the entry at the slot disappears, whether in a leaf or inside. |
| `IndexTree.PageCache.InsertFirst` | znet/common/db.h:909-917 | insert_init_node(): the empty tree gets its first entry. |
| `IndexTree.PageCache.RightMostLeaf` | znet/common/db.h:819-827 | The descent along the last children ends at the leaf with the entry just before the slot. |
| `IndexTree.PageCache.LeftMost` | znet/common/db.h:943-950 | left_most(): the first position below the page, or nothing exactly if there is none. |
| `IndexTree.PageCache.Next` | znet/common/db.h:952-965 | next(): the slot one position further in the order of the whole tree, or nothing exactly at the end. |
| `PageSpace.Space.Alloc` | znet/common/db.h:1231-1245 | A page number that was in no use, from the chain of freed pages first, is in use now. |
| `PageSpace.Space.Free` | znet/common/db.h:1247-1252 | The page number is in no use any more; all others are as before. |
| `Keys.CmpZero` | znet/common/db.h:2670-2708 | The reference order of keys is zero on equal keys only. |
| `Keys.CmpTransitive` | znet/common/db.h:2670-2708 | The reference order is transitive. |
| `Keys.CmpFlip` | znet/common/db.h:2670-2708 | The reference order is antisymmetric: with the two facts above a strict total order. |
| `Keys.FirstDifference` | znet/common/db.h:2670-2708 | The first byte in which two keys differ decides, and a key stands before its continuations. |
| `Keys.WordCompares` | znet/common/db.h:2644-2658 | One step of memcmp_fast on little-endian words, judged by the lowest differing byte of the wrapped difference, decides as the four bytes do. |
| `Keys.MemCmpFast` | znet/common/db.h:2642-2668 | memcmp_fast() has the sign of the bytewise lexicographic comparison. |
| `Keys.StepCompares` | znet/common/db.h:2691-2707 | Comparing piece by piece decides as comparing the whole keys does. |
| `Keys.LengthsDecide` | znet/common/db.h:2670-2708 | Where a stored key is the beginning of another, the difference of the lengths as an int decides rightly if and only if the keys are equal or the difference, cut to 32 bits, is positive. |
| `Keys.LongKeyBefore` | znet/common/db.h:2676-2676 | A key 2 GiB longer than a stored beginning of it compares as the smaller one. |
| `DataModel.OneSlice` | znet/common/db.h:2477-2478 | Every byte of a data page lies in exactly one slice. |
| `DataModel.MergeTiles` | znet/common/db.h:2500-2515 | A slice that absorbs the one behind it leaves the page tiled. |
| `DataModel.SplitTiles` | znet/common/db.h:1328-1347 | A slice that is split leaves the page tiled. |
| `DataModel.OnePredecessor` | znet/common/db.h:2492-2519 | A slice has at most one slice in front of it. |
| `DataModel.OnItsList` | znet/common/db.h:1263-1309 | Every free slice is found on the list of the bucket of its capacity. |
| `DataModel.ListOnly` | znet/common/db.h:1263-1309 | A bucket list holds nothing but free slices of that bucket. |
| `DataModel.NoneListed` | znet/common/db.h:1311-1322 | A bucket whose list head is 0 has no free slice. |
| `DataModel.ChainSlices` | znet/common/db.h:2526-2535 | Following the links from the first slice of a record gives exactly its slices and ends with the last. |
| `RecordModel.EncodesReads` | znet/common/db.h:1371-1423 | The bytes of a record can be taken apart into total, key length, key and value. |
| `RecordModel.RecordLayout` | znet/common/db.h:1387-1389 | The instance: a record of 10 bytes with its little-endian words. |
| `RecordModel.EncodesInjective` | znet/common/db.h:1371-1423 | No two records have the same bytes. |
| `DataStore.DataPages.ClrFragment` | znet/common/db.h:1263-1289 | clr_fragment(): the slice leaves its doubly linked list, whether it is first, inside or last. |
| `DataStore.DataPages.SetFragment` | znet/common/db.h:1291-1309 | set_fragment(): the slice is listed, or its page goes back to the page list if the slice is the whole page. |
| `DataStore.DataPages.TakeHead` | znet/common/db.h:1311-1326 | __alloc_data_head(): the first slice of the lowest bucket list that serves the length; a fresh page if and only if there is none, or a whole page is asked for. |
| `DataStore.DataPages.AdjustDataHead` | znet/common/db.h:1328-1347 | adjust_data_head(): below PAGEMINSPARE bytes beside a header nothing changes; otherwise the slice ends at the next multiple of 16 and what is behind, with a free slice that follows, is a free slice. |
| `DataStore.DataPages.AllocDataHead` | znet/common/db.h:1349-1361 | alloc_data_head(): an unused slice with room for what it is marked to hold and less than 32 bytes more; a new page only if no listed slice serves; no used slice changes. |
| `DataStore.DataPages.FreeSlice` | znet/common/db.h:2492-2519 | One turn of free_data(): the slice is freed and joined with the free slices around it, so that no two free ones touch. |
| `DataStore.DataPages.CreateNode` | znet/common/db.h:1371-1423 | create_node(): one more record that reads exactly as the key and the value, for all lengths, in slices of whole pages but the last; every other record keeps its bytes. |
| `DataStore.DataPages.FreeData` | znet/common/db.h:2492-2519 | free_data(): exactly the slices of the record become free; the other records keep their bytes. |
| `DataStore.DataPages.ExtractData` | znet/common/db.h:2521-2535 | extract_data() gives all bytes of the record. |
| `DataStore.DataPages.ExtractKey` | znet/common/db.h:2537-2560 | extract_key() gives the key that was stored. |
| `DataStore.DataPages.ExtractVal` | znet/common/db.h:2588-2603 | extract_val() gives the value that was stored. |
| `DataStore.DataPages.CompareRecord` | znet/common/db.h:2686-2708 | The part of compare() that reads a record has the sign of the comparison with its whole key, across slices. |
| `DataStore.DataPages.Trim` | znet/common/db.h:1442-1505 | When the new value ends in a slice, the slices up to it stay, the rest of it and all slices behind it are freed, and only those. |
| `DataStore.DataPages.Extend` | znet/common/db.h:1442-1505 | When the new value is longer than the slices, new ones take the rest and no byte is lost or stored twice. |
| `DataStore.DataPages.PutReplace` | znet/common/db.h:1442-1505 | put_replace(): the record reads exactly as the key and the new value; it moves if and only if its first slice is too short, and otherwise keeps its slices up to one that is not a whole page; every other record keeps its bytes. |
| `DataStore.DataPages.ByteInOneSlice` | znet/common/db.h:1263-1369 | In every state each byte of a data page lies in exactly one slice. |
| `DataStore.DataPages.FreeSliceListed` | znet/common/db.h:1291-1309 | In every state a free slice is on the list of its bucket, the slice behind it is not free, and it is not a whole page. |
| `DataStore.DataPages.UsedSliceOwned` | znet/common/db.h:1371-1423 | In every state a used slice belongs to exactly one record, at one place of its chain. |
| `DataStore.DataPages.UsedSliceFits` | znet/common/db.h:1328-1361 | In every state a used slice takes with its header less than 44 bytes more than it holds. |
| `DataStore.DataPages.PageInUse` | znet/common/db.h:1291-1298 | In every state every data page holds bytes of a record. |
| `MapModel.MapInsert` | znet/common/db.h:1425-1440 | An entry put between smaller and greater keys adds exactly its pair to the map. |
| `MapModel.MapDrop` | znet/common/db.h:1598-1609 | A dropped entry removes exactly its pair from the map. |
| `MapModel.MapSize` | znet/common/db.h:1627-1627 | The map has as many keys as the ordered list has entries. |
| `Database.Table.constructor` | znet/common/db.h:1164-1182 | A new table is the empty map. |
| `Database.Table.Compare` | znet/common/db.h:2670-2708 | compare(): on an abbreviated entry it has the sign of the comparison of the two full keys, as an int; the entry that is made from a key compares as equal to that key if and only if the key is not empty. |
| `Database.Table.FindInPage` | znet/common/db.h:865-892 | The binary search in one page: the slot with the key, or the gap that the key belongs to. |
| `Database.Table.FindKey` | znet/common/db.h:865-892 | find_key(): the slot that holds the key, or the leaf slot in front of which it belongs, smaller keys before and greater behind; nothing only for an empty tree. |
| `Database.Table.Find` | znet/common/db.h:1529-1539 | find(): the value of the map under the key, or nothing exactly if the key is not there; nothing for the empty key, whatever was stored. |
| `Database.Table.PutNewNode` | znet/common/db.h:1425-1440 | put_new_node(): a new key is added with its value; a key that is there is only found; the empty key is always added, as an entry that no search finds. |
| `Database.Table.Put` | znet/common/db.h:1507-1520 | put(): refines the map update, refused exactly if the key is there and replace is not set; under the empty key it is never refused. |
| `Database.Table.Exchange` | znet/common/db.h:1522-1527 | The put() that returns the value stored before, or nothing if there was none. |
| `Database.Table.Del` | znet/common/db.h:1598-1609 | del(): refines map removal and tells whether the key was there. |
| `Database.Table.Withdraw` | znet/common/db.h:1611-1624 | The del() that returns the removed value. |
| `Database.Table.RecordCount` | znet/common/db.h:148-148 | record_count() is the size of the map, modulo the width of the counters. |
| `Database.Table.Walk` | znet/common/db.h:1555-1594 | walk(): every pair of the map exactly once, in ascending key order. |
| `Database.Table.PagesPartitioned` | znet/common/db.h:1231-1252 | In every state each page of the file is exactly one of: reached from the root, a data page, on the free-page list. |
| `Session.Serve` | znet/common/db.h:1507-1539 | Every request to a table answers and changes the content as the same request to a finite map does. |
| `Session.Run` | znet/common/db.h:1425-1627 | For every sequence of put (with and without replace), exchanging put, del, returning del, find and record_count: all answers, in order, and the final content are those of a finite map. |
| `Session.EmptyKeyTwice` | znet/common/db.h:2670-2684 | The instance: after a put() of the empty key find() of it gives nothing, and a second put() without replace is not refused. |
| `CheckpointModel.Redone` | znet/common/db.h:1664-1674 | Writing a whole snapshot over a partly written table gives what it would have given on the old table. |
| `CheckpointModel.AfterReads` | znet/common/db.h:1664-1674 | After a commit a page holds what the snapshot wrote to it last, the magic page the last page of the snapshot, and every other page what it held. |
| `CheckpointModel.RecordPrepared` | znet/common/db.h:2059-2078 | The single write that makes a record a prepared one takes the disk from the old state to one that a restart completes to the new state. |
| `CheckpointModel.RecordClosed` | znet/common/db.h:2080-2098 | The single write that closes the record leaves the new state with nothing to redo. |
| `LogReplay.ChronLast` | znet/common/db.h:2059-2078 | A write to the last log file of the chain leaves the story of all finished records as it is, if it keeps the records of that file. |
| `LogReplay.ChronClose` | znet/common/db.h:2080-2119 | Finishing the current record adds exactly that record, with its snapshots and its time, to the story of the chained log files. |
| `Recovery.Prepares` | znet/common/db.h:2059-2078 | After the write that turns the record into a prepared one a restart finds the old checkpoint or completes this one, and the finished records are as before. |
| `Recovery.Steps` | znet/common/db.h:1829-1848 | After any of the writes to a table that LogInfo::commit() makes, the disk is recoverable and the finished records are as before. |
| `Recovery.Closes` | znet/common/db.h:2101-2119 | The write that closes the record leaves all tables at the new checkpoint, with its time, and the story longer by that checkpoint. |
| `Recovery.Aborts` | znet/common/db.h:2036-2046 | The write that aborts a record that was not prepared leaves the tables as they are and adds an aborted record to the story. |
| `Recovery.NewestTells` | znet/common/db.h:2012-2055 | The newest log file that any table names tells which of the states the disk is in: old, under way, or done. |
| `Checkpoint.GlobalLogger.InitLogFile` | znet/common/db.h:1957-1977 | init_log_file(): a new log file with a later time and empty span pages, in one write for every table and one or two of key pages; an open one is chained to it, without one the last file goes on naming what it named; wherever the machine stops, the tables and the finished records are as before. |
| `Checkpoint.GlobalLogger.CheckRotate` | znet/common/db.h:1992-1997 | logger_check_rotate(): a new log file exactly if one is asked for, the records are used up, or there are too many pages; otherwise nothing is written. |
| `Checkpoint.GlobalLogger.SaveShot` | znet/common/db.h:1819-1827 | LogInfo::prepare(): the snapshot is in the log and the span in its key page, in one write for every page and one more; nothing a restart or a restore looks at has changed. |
| `Checkpoint.GlobalLogger.Prepare` | znet/common/db.h:2059-2078 | prepare(): wherever the machine stops, a restart finds the old checkpoint or the new one; no table is written. Without an open log file, and if none is begun, the program ends with nothing changed; it makes exactly the page writes of the source, the first of them behind a rotation the one that begins the record, and the prepared item names the pages of the snapshots. |
| `Checkpoint.GlobalLogger.CommitTable` | znet/common/db.h:1829-1848 | LogInfo::commit() for any record: at every moment the table is as it was, or differs only where the snapshot says and has the id of the log file; at the end it is the table with the snapshot written over it, with the id and the time; one write for every page and one more. |
| `Checkpoint.GlobalLogger.Apply` | znet/common/db.h:2080-2119 | The loop of redo() and commit(): recoverable at every moment; at the end all tables are at the new checkpoint with its time, and the story has one more record. |
| `Checkpoint.GlobalLogger.Checkpoint` | znet/common/db.h:2059-2119 | One checkpoint of all tables is atomic, also the first one of a logger that opened no log file: stopped between any two page writes, the disk is recoverable to all old or all new; not stopped, all tables are new and the log files tell the old story and exactly one more committed record, with these snapshots and the time of the commit. Without an open log file it goes to a new one that the last file does not name, or the program ends with nothing changed; it takes exactly two writes for every saved page and every table, three of the key page, and those of a rotation. |
| `Checkpoint.GlobalLogger.LoadLogFile` | znet/common/db.h:1937-1955 | load_log_file(): key page and spans are in memory as the file has them; a file that does not exist cannot be read. |
| `Checkpoint.GlobalLogger.AbortRecord` | znet/common/db.h:2039-2045 | The write that aborts: with budget left exactly the key page of the open log file changes, the item aborted and counted; the story has one aborted record more. |
| `Checkpoint.GlobalLogger.IntegrityVerify` | znet/common/db.h:2012-2057 | integrity_verify(), where the key page has room for the current item: opens the newest log file; an item that was begun and has no result becomes an aborted one without a time and is counted, in one write; otherwise nothing is written, and redo is asked for exactly if the item is a prepared one. |
| `Checkpoint.GlobalLogger.Restart` | znet/common/db.h:2012-2099 | integrity_verify() and redo(): stopped again anywhere the disk stays recoverable; not stopped, all tables are at the last checkpoint or all at the one under way, with the matching story; without a redo the disk is as integrity_verify() leaves it. |
| `Checkpoint.VerdictIff` | znet/common/db.h:2036-2050 | Between two checkpoints a restart asks for no redo, whatever stands in memory behind the key page, if and only if fewer than 203 records are used. |
| `Checkpoint.FullPageMisread` | znet/common/db.h:1974-1974 | A state after 203 checkpoints with nothing to redo, where the item that a restart reads lies behind the page: the answer is redo or abort as that memory says. |
| `Checkpoint.LongNames` | znet/common/db.h:1971-1974 | With a table name of 28 characters or more, which leaves a log file less than 203 items, the condition for restarts always holds. |
| `Checkpoint.OlderFile` | znet/common/db.h:2020-2035 | A checkpoint in a log file older than the last one is not atomic: stopped between two tables, a restart finds neither all old nor all new. |
| `Checkpoint.GlobalLogger.RestoreRecord` | znet/common/db.h:1979-1990 | restore(timestamp, rec_index): every table gets the page writes of the record, the id of the open log file and the time. |
| `Checkpoint.GlobalLogger.RestoreFile` | znet/common/db.h:2160-2169 | The records of one log file: committed ones earlier than t are written to the tables in order, aborted ones skipped, later ones end the replay. |
| `Checkpoint.GlobalLogger.Restore` | znet/common/db.h:2151-2171 | restore(t): across the log files that the chain leads to, the table files become those of the last checkpoint committed before t in them, with its time and log file, or stay if t is not later than theirs; the times returned are those of the records replayed; the log file of the start is open again; it fails if and only if all records are read and the last log file names one that does not exist. |
| `LogReplay.SameBounds` | znet/common/db.h:2151-2171 | Two times with the same committed checkpoints before them have the same tables. |
| `LogReplay.Applied` | znet/common/db.h:2160-2169 | Tables at one checkpoint are at the next one when the pages of its record are written. |
| `LogReplay.Completed` | znet/common/db.h:2160-2169 | At the first record that is not earlier than t, and behind all records, the tables are those of the last checkpoint before t. |
| `LogReplay.TimesTell` | znet/common/db.h:2151-2171 | The times that restore() returns are those of the committed records later than the tables and earlier than t. |
| `LogReplay.TimesAscend` | znet/common/db.h:2151-2171 | And they ascend, if the clock did. |
| `LogReplay.UntilReads` | znet/common/db.h:2170-2170 | What can be read from a log file on, file after file, is the story up to the next file that was begun without a chain; behind it there is nothing to replay. |
| `LogReplay.RepeatedIff` | znet/common/db.h:2155-2163 | A restore that was stopped inside a record: a second one brings all tables over it if and only if the first table did not get its time yet, or nothing was left to be written. |
| `History.Initially` | znet/common/db.h:1957-1977 | A run can start from any tables at rest with a log file, as init_log_file() leaves them: the first state is sound. |
| `History.Run` | znet/common/db.h:2012-2119 | Any sequence of restarts and checkpoints, each stopped after any number of page writes, at any readings of the clock, the first checkpoint behind a redo on the new logger that init() makes: after every action the tables are all at the last checkpoint, or can be brought there or to the one under way; a restart that ends has done so; as long as the clock moves on, the log files tell every checkpoint so far. The run stops early only before a restart with a full key page, or where a logger without an open log file would begin one that is not later than the last. The machine stops only when its budget of writes is used up, and no restart or checkpoint uses more than a stated number. |
| `History.EnoughLeft` | znet/common/db.h:2012-2119 | With that many page writes left a restart ends with the program running, and a checkpoint is completed. |
| `History.StaysTimely` | znet/common/db.h:2080-2119 | With a clock that is later at every reading, every state of a run is timely: by the invariant its log files tell every checkpoint, with growing times. |
| `History.NeverBack` | znet/common/db.h:1959-1960 | With a clock that moves on a logger without an open log file never begins one that is not later than the last. |
| `History.LatestTables` | znet/common/db.h:2151-2171 | Replaying all records before t gives the tables as they were at the last checkpoint of the run before t. |
| `History.ReachTables` | znet/common/db.h:2151-2171 | Replaying the records before t in the log files up to one gives the last checkpoint before t that lies in them. |
| `History.RestoreMoment` | znet/common/db.h:2151-2171 | restore(t) on the table files of any earlier checkpoint, with the log files of today, gives the tables as they were at the last checkpoint before t that the chain of log files leads to. |
| `History.RestoreCopy` | znet/common/db.h:2151-2171 | The same for table files copied between two actions of a run and the log files of any later moment of it, with no checkpoint under way at either moment; the times returned are those of the records replayed. |
| `History.CopyIff` | znet/common/db.h:1961-1965 | That is the last checkpoint of the run before t if and only if no log file between the two checkpoints was begun without being named by the one before it. |
| `History.RedoCuts` | znet/common/db.h:2937-2956 | The first checkpoint behind a redo is never reached from a copy made before it: init() made a logger that opened no log file, and the file it begins is in no chain. |
| `UnchainedLog.RunState` | znet/common/db.h:2937-2956 | The instance: checkpoints at 5 and, by a redo, at 7 in log file 1, then at 10 in log file 9, which no file names, are a state of the runs above. |
| `UnchainedLog.EndsAtSeven` | znet/common/db.h:2160-2170 | In it restore(11) on a copy made at 5 reaches 7, though the last checkpoint before is that at 10. |
| `UnchainedLog.RestoreEleven` | znet/common/db.h:2151-2171 | And restore(11) leaves the table of that copy as it was at 7. |
| `CacheModel.SortedIsRecency` | znet/common/db.h:1019-1030 | Sorting all cached pages by their numbers gives their order of use. |
| `CacheModel.EvictedOldest` | znet/common/db.h:1032-1050 | A page that eviction removes is clean and was used before every clean page that stays. |
| `CacheModel.EvictedSize` | znet/common/db.h:1032-1050 | Eviction removes as many pages as are too many, or all clean ones if these are fewer. |
| `CacheModel.EvictedOrder` | znet/common/db.h:1032-1050 | The pages that stay keep their order of use. |
| `PageCaching.PageCache.constructor` | znet/common/db.h:1164-1182 | The cache of a file shows the file, with a new magic page if it has none; the number of buckets is 16 doubled until it reaches the high mark, no more. |
| `PageCaching.PageCache.Renumber` | znet/common/db.h:1019-1030 | When the counter wraps, the pages get new numbers in the same order of use. |
| `PageCaching.PageCache.LruAdjust` | znet/common/db.h:1012-1017 | lru_adjust(page): the page gets the next number; the pages are renumbered exactly if the counter wraps. |
| `PageCaching.PageCache.Find` | znet/common/db.h:1132-1138 | find(): a cached page is found in its bucket and becomes the one used last. |
| `PageCaching.PageCache.Insert` | znet/common/db.h:1107-1130 | insert(): the page is in its bucket and used last; the buckets are doubled exactly if the hash had one page less than buckets. |
| `PageCaching.PageCache.Rehash` | znet/common/db.h:1112-1128 | Doubling the buckets keeps exactly the cached pages, each in its bucket. |
| `PageCaching.PageCache.Erase` | znet/common/db.h:997-1010 | erase(): exactly the page leaves its chain. |
| `PageCaching.PageCache.Cleanup` | znet/common/db.h:1032-1057 | cleanup(): above the high mark the clean pages used longest ago go until the low mark is reached; the numbers again tell the order of use. |
| `PageCaching.PageCache.Load` | znet/common/db.h:1203-1226 | __load(): the page is in memory afterwards, fails exactly if there is none, and no content changes. |
| `PageCaching.PageCache.SetDirty` | znet/common/db.h:484-488 | set_dirty(): no content changes. |
| `PageCaching.PageCache.NewPage` | znet/common/db.h:1231-1245 | A page behind the end of the file is in memory, zeroed and dirty; no other content changes. |
| `PageCaching.PageCache.Write` | znet/common/db.h:484-488 | A write to a dirty page changes the content of that page only, and no snapshot. |
| `PageCaching.PageCache.CleanupPages` | znet/common/db.h:1032-1057 | Outside of a pending snapshot eviction removes clean pages only, and no content changes. |
| `PageCaching.PageCache.SnapshotCreate` | znet/common/db.h:1075-1095 | snapshot_create(): the snapshot has exactly the dirty pages, the magic page with them, and stands for the content of all pages at that moment. |
| `PageCaching.PageCache.Persist` | znet/common/db.h:1819-1848 | Writing the copies makes the file the content at the moment of the snapshot, even if pages were changed since; what users see stays. |
| `PageCaching.PageCache.SnapshotRelease` | znet/common/db.h:1097-1105 | snapshot_release(): the copies are freed, clean pages may go now and go as in cleanup(); no content changes. |
| `LockTable.NewEdge` | znet/common/lock.h:34-58 | A new wait closes a circle if and only if the holder already leads back to the one who waits. |
| `LockTable.GrantKeepsAcyclic` | znet/common/lock.h:34-58 | Granting a free resource that others still wait for never closes a circle. |
| `LockTable.LockTable.Lock` | znet/common/lock.h:34-58 | Lock(): GRANT, BLOCK or DEADLOCK, the last exactly if the wait closes a circle; the graph stays free of circles once those refused withdraw. |
| `LockTable.LockTable.Chase` | znet/common/lock.h:52-57 | The chase from holder to holder ends, and answers DEADLOCK exactly if it leads back. |
| `LockTable.LockTable.Unlock` | znet/common/lock.h:60-86 | Unlock(): withdraws the request or gives the resource back, and notifies exactly those who wait for it. |
| `LockTable.LockTable.UnlockAll` | znet/common/lock.h:88-116 | The other Unlock(): withdraws the request, gives everything back, notifies exactly the waiters. |
| `ChunkModel.Taken` | zgame/include/amemory.h:89-100 | chunk::alloc(): the first free slot is taken and the links list the others. |
| `ChunkModel.Returned` | zgame/include/amemory.h:110-118 | chunk::free(): the slot becomes the first of the links. |
| `ChunkModel.FreshLinked` | zgame/include/amemory.h:55-61 | init() links all 255 slots in a row, the last link being the end mark. |
| `FixAllocator.ObjectsApart` | zgame/include/amemory.h:250-265 | Two live objects do not overlap. |
| `FixAllocator.LiveTaken` | zgame/include/amemory.h:89-100 | The first free slot of a chunk is not live. |
| `FixAllocator.FoundIff` | zgame/include/amemory.h:169-183 | The search for the chunk of an address meets it if and only if no chunk in front of it ends just where the address is. |
| `FixAllocator.FreeingBlock` | zgame/include/amemory.h:169-183 | free() of an address in a chunk of the block list that is not the last one reaches the chunk if and only if no chunk in front of it ends just where the address is; otherwise it throws and the slot is lost. |
| `FixAllocator.FreeingEmpty` | zgame/include/amemory.h:185-203 | The same for an exhausted chunk. |
| `FixAllocator.TouchingChunks` | zgame/include/amemory.h:267-282 | The instance: of two chunks of 8-byte slots, the second where the first ends, the first slot of the second cannot be given back, the next one can. |
| `FixAllocator.Allocator.constructor` | zgame/include/amemory.h:245-248 | A new allocator has one chunk and no live object. |
| `FixAllocator.Allocator.InitChunk` | zgame/include/amemory.h:45-62 | init(): a chunk of free slots; memory outside of it is untouched. |
| `FixAllocator.Allocator.Alloc` | zgame/include/amemory.h:250-265 | alloc(): an address that was not live; an exhausted chunk moves to the empty list, and a new chunk is made exactly if it was the last free slot. |
| `FixAllocator.Allocator.FindChunk` | zgame/include/amemory.h:169-183 | find_chunk(): the chunk of a live address exactly if it is in the block list. |
| `FixAllocator.Allocator.FindEmpty` | zgame/include/amemory.h:185-201 | get_from_empty_list() meets the chunk of the address. |
| `FixAllocator.Allocator.RemoveChunk` | zgame/include/amemory.h:202-223 | remove_chunk() removes exactly the chunk. |
| `FixAllocator.Allocator.Free` | zgame/include/amemory.h:267-291 | free(): exactly the address is not live any more; its chunk goes back exactly if it is free altogether and more than 510 slots are free; it never throws. |
| `FixAllocator.Allocator.OwnerWrite` | zgame/include/amemory.h:89-118 | What the owner of a live object writes into it does not reach the links of free slots. |
| `FixAllocator.Allocator.ObjCount` | zgame/include/amemory.h:225-233 | obj_count() is the number of live objects. |
| `References.ReferenceKeeps` | znet/common/reference.h:28-75 | A handle refers to a control block that was not deleted, and a hard handle to an object that was not destroyed. |
| `References.NothingLeft` | znet/common/reference.h:38-56 | Once nobody refers to it and no operation is under way, object and control block were given up, each exactly once. |
| `References.World.Create` | znet/common/reference.h:36-36 | A new reference starts with one hard and one weak share. |
| `References.World.StartAssign` | znet/common/reference.h:118-138 | An assignment gives up the old reference first; assigning a handle to itself does nothing. |
| `References.World.ReleaseHard` | znet/common/reference.h:38-47 | --hard_count: just the thread that takes it to 0 goes on to destroy(). |
| `References.World.DestroyObject` | znet/common/reference.h:45-46 | destroy() runs when no hard share is left, and never twice. |
| `References.World.ReleaseWeak` | znet/common/reference.h:48-56 | --weak_count: just the thread that takes it to 0 goes on to delete. |
| `References.World.DeleteBlock` | znet/common/reference.h:55-55 | The control block is deleted when no share is left, after its object was destroyed, and never twice. |
| `References.World.AcquireCopy` | znet/common/reference.h:57-74 | The copy and its counting: a hard handle from a weak one is NULL exactly if no hard share is left; a copied hard handle never is. |
| `References.World.Step` | znet/common/reference.h:38-74 | The step of a thread inside an operation does to counts, handles, object and control block exactly what its place says. |
| `References.Obey` | znet/common/reference.h:81-163 | Construction, copying, assignment and destruction of handles start exactly what they should; an assignment to itself does nothing. |
| `References.NearsEnd` | znet/common/reference.h:38-74 | No operation of a thread takes more than five atomic steps. |
| `References.Run` | znet/common/reference.h:28-75 | For every interleaving of the steps of all threads, each step as specified: no live handle refers to what is gone, a control block is deleted after its object was destroyed, no thread is at a step that uses a deleted one, and what nobody refers to in the end was given up once. |
| `Variant.DecimalNumber` | znet/common/variant.h:119-140 | The printed digits of a number read back as the number. |
| `Variant.Places` | znet/common/variant.h:119-140 | Digits have their decimal places: a digit behind a number multiplies it by ten and adds its value. |
| `Variant.DecimalOnly` | znet/common/variant.h:135-140 | The printed number is the only way to write it without zeros in front. |
| `Variant.DecimalLength` | znet/common/variant.h:173-177 | A number is printed with at most k digits if and only if it is below the k-th power of ten. |
| `Variant.SixDigits` | znet/common/variant.h:175-177 | A length fits with its colon into the buffer of eight characters if and only if it is below 1000000. |
| `Variant.IntBytes` | znet/common/variant.h:135-140 | The instances: 10 is printed as "i10e" and read back, -7 is printed as "i-7e", which is not read. |
| `Variant.ListedBytes` | znet/common/variant.h:173-214 | The instances "1:a", "li1e1:ae", "d1:ai1ee" and "lee", byte by byte. |
| `Variant.RoundTrip` | znet/common/variant.h:298-332 | Parsing a printed value gives the value and leaves exactly what follows it. |
| `Variant.DecReadable` | znet/common/variant.h:298-332 | Whatever is parsed is a value of the printable form. |
| `Variant.ReadBackExactly` | znet/common/variant.h:298-332 | A value is read back as it was printed if and only if it is of the printable form. |
| `Variant.NotReadBack` | znet/common/variant.h:123-206 | For instance a list with an undef in it and a negative number are not read back. |
| `Variant.IntFormat` | znet/common/variant.h:123-134 | A number is read if and only if the bytes are at least one digit and then an "e" or the end, and one above 2^63 - 1 gives 2^63 - 1. |
| `Variant.StrFormat` | znet/common/variant.h:165-172 | A string is read if and only if the bytes are digits, a colon, as many bytes as the digits say, and what follows. |
| `Variant.InsertPlace` | znet/common/variant.h:239-253 | A pair of a dictionary comes to the place of its key in the order of the texts, unless a key with that text is there: then the first value stays. |
| `Variant.KeysByText` | znet/common/variant.h:74-80 | The instance: the key 10 stands before the key 9, since keys are ordered by their texts. |
| `Variant.CutOffList` | znet/common/variant.h:201-206 | A list that is cut off ends there without an error. |
| `Variant.CutOffDict` | znet/common/variant.h:242-253 | So does a dictionary, but one that is cut off between a key and its value is an error. |
| `Variant.Encode` | znet/common/variant.h:207-214 | Encode(): the printed value is appended to the buffer, nested values included; with the rows on places, lengths and instances this is the format byte by byte. |
| `Variant.DecodeInt` | znet/common/variant.h:123-134 | IntNode::Decode on the buffer is the parser of the specification and stops where it does. |
| `Variant.DecodeStr` | znet/common/variant.h:165-172 | StringNode::Decode on the buffer is the parser of the specification. |
| `Variant.DecodeList` | znet/common/variant.h:201-206 | ListNode::Decode on the buffer is the parser of the specification. |
| `Variant.DecodeDict` | znet/common/variant.h:242-253 | DictNode::Decode on the buffer, with std::map insertion, is the parser of the specification. |
| `Variant.DecodeAtom` | znet/common/variant.h:298-332 | DecodeAtom() on the buffer is the parser of the specification. |
| `Variant.PrintAndParse` | znet/common/variant.h:96-102 | A value printed into a buffer and parsed from it is the same value if and only if it is of the printable form. |
| `OpenList.HeapFirst` | zgame/pathfinding/MapNode.cpp:178-196 | The first node of a heap is a cheapest one. |
| `OpenList.OpenHeap.HeapifyUp` | zgame/pathfinding/MapNode.cpp:92-116 | _HeapifyUp(): a heap that was broken at one place towards the root is a heap, with the same nodes and exact positions. |
| `OpenList.OpenHeap.HeapifyDown` | zgame/pathfinding/MapNode.cpp:138-176 | _HeapifyDown(): a heap that was broken at one place towards the leaves is a heap. |
| `OpenList.OpenHeap.Push` | zgame/pathfinding/MapNode.cpp:118-124 | Push(): the list has the node besides those it had. |
| `OpenList.OpenHeap.Find` | zgame/pathfinding/MapNode.cpp:126-136 | Find(): the place of the node of a cell, or the size of the list exactly if there is none. |
| `OpenList.OpenHeap.PopMinCost` | zgame/pathfinding/MapNode.cpp:178-196 | PopMinCost(): a node of least cost leaves the list; nothing happens to an empty one. |
| `OpenList.OpenHeap.DecreaseKey` | zgame/pathfinding/MapNode.cpp:211-214 | DecreaseKey(): the heap is in order again after a node got cheaper. |
| `OpenList.OpenArray.PopMinCost` | zgame/pathfinding/MapNode.cpp:66-78 | The array variant meets the same contract by a linear search; of several cheapest nodes it takes the first. |
| `OpenList.Open.PopMinCost` | zgame/pathfinding/MapNode.h:37-54 | Through the MOpen interface both variants take a node of least cost out. |
| `AStar.Grid.Improves` | zgame/pathfinding/MAStar.cpp:109-159 | A cheaper way found by the node just taken keeps every predecessor recorded and the costs along predecessors consistent, and lowers the cost of its cell. |
| `AStar.Grid.NoPath` | zgame/pathfinding/MAStar.cpp:67-172 | If the closed cells include the start, not the goal, and all their neighbours, the goal cannot be reached. |
| `AStar.Grid.KnownReached` | zgame/pathfinding/MAStar.cpp:109-159 | Every cell the search knows can be reached from the start, back over the predecessors. |
| `AStar.Grid.ManhattanSteps` | zgame/pathfinding/PfCommon.h:112-115 | The estimate is 0 at the goal alone; a straight step changes it by 1, a diagonal one by 2 or not at all. |
| `AStar.Grid.EstimateBound` | zgame/pathfinding/PfCommon.h:112-115 | Along any path to the goal the estimate is at most 2 / 1.414 times the length of the path. |
| `AStar.Grid.GoalBound` | zgame/pathfinding/MAStar.cpp:67-172 | If no open node is cheaper than the goal and the closed ones are expanded, the cost of the goal is at most 2 / 1.414 times the length of any path to it. |
| `AStar.NoWorse` | zgame/pathfinding/MAStar.cpp:83-93 | When the goal is taken from the open list it can be reached, and no route to it is shorter than 0.707 times its cost. |
| `AStar.CMAStar.Touch` | zgame/pathfinding/MAStar.cpp:94-161 | One neighbour of the current node: it goes to the open list with the cost over the current node if and only if it may be entered and is unknown or was more expensive, also back from the closed list; otherwise nothing changes. |
| `AStar.CMAStar.Search` | zgame/pathfinding/MAStar.cpp:25-182 | Search(): below the limit FOUND if and only if the goal can be reached, with a path over adjacent allowed cells whose summed cost is at most 2 / 1.414 times the length of any route; EXCEED only when 3000 nodes were taken from the open list and some are left; the counters tell how many were taken and touched. |
| `AStar.CMAStar.GeneratePath` | zgame/pathfinding/MAStar.cpp:187-235 | _GeneratePath() ends, with a path to the goal from the start or from a cell that is open again, and its cost, which is no more than that of the goal. |
| `Graphs.FilledNumbered` | zgame/pathfinding/Graph.cpp:131-134 | After the last element takes a place, the numbers are exact and all other elements are left. |
| `Graphs.EdgeAdded` | zgame/pathfinding/Graph.cpp:72-91 | A new edge is listed once for each of its ends, twice at one node for a loop. |
| `Graphs.NodeMovedTo` | zgame/pathfinding/Graph.cpp:164-183 | A node and the ends of its edges moved to another number keep every list exact and every edge between the same nodes. |
| `Graphs.CGGraph.AddNode` | zgame/pathfinding/Graph.cpp:56-70 | AddNode(): the node gets the next number. |
| `Graphs.CGGraph.AddEdge` | zgame/pathfinding/Graph.cpp:72-91 | AddEdge(): the edge gets the next number and is in the lists of its nodes. |
| `Graphs.CGGraph.NodeRemoveEdge` | zgame/pathfinding/Graph.cpp:399-441 | CGNode::RemoveEdge(): the list loses the edge once. |
| `Graphs.CGGraph.RemoveEdge` | zgame/pathfinding/Graph.cpp:115-138 | RemoveEdge(): exactly the edge goes, loops and parallel edges included, and all numbers and lists are exact. |
| `Graphs.CGGraph.Repair` | zgame/pathfinding/Graph.cpp:171-183 | The repair loop renames every end of every listed edge, both ends of a loop. |
| `Graphs.CGGraph.RemoveNode` | zgame/pathfinding/Graph.cpp:142-197 | RemoveNode(): exactly the node and its edges go; the rest is the induced subgraph with the one reported renumbering. |
| `Graphs.CGGraph.Clone` | zgame/pathfinding/Graph.cpp:93-110 | Clone(): the copy joins the same numbers by the same edges. |
| `RwLock.SomebodyMoves` | zgame/include/rwlock.h:22-28 | If a thread waits, some thread comes nearer to the end of its operation, or reads or writes and can end that: no deadlock. |
| `RwLock.Returned` | zgame/include/rwlock.h:22-28 | With the invariant of the lock: WriteLock() and ReadLockToWrite() have returned only to a thread that is writing, ReadLock() and WriteLockToRead() only to one that is reading, the unlocks only to one that has nothing, and never two threads from WriteLock(). |
| `RwLock.RWLock.Step` | zgame/include/rwlock.h:16-28 | Every atomic step of any thread keeps: the counter is the number of read shares, one holder of the spin lock, no reader beside a writer, every thread on the way of its last call; it begins a call, waits, or comes one step nearer to the end. |
| `RwLock.Run` | zgame/include/rwlock.h:16-28 | For every interleaving: a thread that returned from WriteLock() or ReadLockToWrite() is writing and alone, one that returned from ReadLock() or WriteLockToRead() is reading, one that unlocked has nothing; two threads never both return from WriteLock(). |

## Left out

- Database.Table.Put: asks for a key of less than 2 GiB and a record of less than 4 GiB, whose 32-bit total would wrap. After a put() under the empty key the contract says what was stored and what find() gives; what later requests with other keys do then is left out, since compare() reads bytes of the slot that were never written.
- Database.Table.PutNewNode: the same conditions.
- Database.Table.Exchange: the same conditions.
- Database.Table.Compare: keys of less than 2 GiB; `Keys.LengthsDecide` tells what the difference of longer ones gives.
- Database.Table.Find: keys of less than 2 GiB, as for all requests.
- Database.Table.Del: the same, and a table in which no empty key was stored.
- Database.Table.Withdraw: the same.
- DataStore.DataPages.CompareRecord: keys of less than 2 GiB, as for `Database.Table.Compare`.
- DataStore.DataPages.CreateNode: asks for a record of less than 4 GiB, whose total fits its 32-bit word.
- DataStore.DataPages.PutReplace: the same condition; the value returned to the caller is read by `Database.Table.ValueAt` before.
- Session.Serve: keys of less than 2 GiB, not empty where they are stored, and records of less than 4 GiB.
- Session.Run: the conditions of `Session.Serve` on every request.
- Database.Table.Walk: collects the pairs; the caller's early stop and the eviction between two steps are not modelled, and the skipping of entries without a key is left out because keys are not empty.
- Checkpoint.GlobalLogger.Prepare: every table has been part of a checkpoint before (its logger_id is not zero). The first checkpoint of a new table is left out: the redo loop passes over such tables.
- Checkpoint.GlobalLogger.Checkpoint: the same condition; page writes are atomic and reach the disk in order, and whether a rotation is asked for is a parameter. A logger without an open log file must begin one later than the last; `Checkpoint.OlderFile` tells what happens otherwise, and `History.NeverBack` that a clock that moves on never leads there.
- Checkpoint.GlobalLogger.IntegrityVerify: asks that the key page has room for the current item; `Checkpoint.VerdictIff` tells what happens otherwise. A set of table files with names unlike those in the log file is left out.
- Checkpoint.GlobalLogger.Restart: the same condition.
- Checkpoint.GlobalLogger.Restore: asks that the times of the committed records grow, as they do if the clock moves on (`History.StaysTimely`), and that all tables stand at one checkpoint. A stop in the middle of it leaves them at different ones, and a second restore(t) looks at the time of the first table alone (znet/common/db.h:2155): it is right if the first was stopped before that table got the time of the record, or behind the last table, and otherwise the tables behind never get that record (`LogReplay.RepeatedIff`). A table file that cannot be written, and restore() on the logger that init() makes behind a redo, whose key page was never read, are left out.
- History.Run: what a key page holds that nobody read is a parameter of the restart, and a write through the null log file ends the program. remove_logs(), which asks the null log file for its name, is left out.
- History.RestoreCopy: runs with a clock that moves on; nothing under way when the table files are copied and when the log files are; copies made before the first checkpoint of the story, whose time is not known from it, are left out.
- PageCaching.PageCache.Persist: the copies are written as one step of the cache; how a stop in the middle is repaired is the matter of `Checkpoint`.
- PageCaching.PageCache.constructor: the magic page is meant up to the performance counters here and in all of `PageCaching`; they are written to it without set_dirty().
- PageCaching.PageCache.CleanupPages: not while a snapshot is pending, when a page can be clean and not yet on disk.
- PageCaching.PageCache.Insert: fewer pages than the counter has values; chains are sequences of page numbers instead of links through the pages, and the mask is a remainder.
- IndexTree.PageCache.Split: loading, dirty bits and eviction of pages are not part of the tree model; every page is at hand.
- IndexTree.PageCache.AllocRootIndexPage: page numbers are unbounded.
- LockTable.LockTable.Unlock: the order in which waiters are notified is left open.
- LockTable.LockTable.Lock: a role that was told DEADLOCK withdraws before the next call.
- FixAllocator.Allocator.Alloc: malloc returns buffers that are apart from those in use, with room between, and does not fail; `FixAllocator.FreeingBlock` and `FixAllocator.FreeingEmpty` tell what happens without the room.
- FixAllocator.Allocator.constructor: element sizes from 1 to 65535, which chunk::init() takes as an unsigned short; size 0, which fast_allocator::alloc(0) passes, is left out.
- References.Run: handles are not written while another thread uses them, and swap() is left out. Which object a handle lies in is not modelled, so that a destructor does not use the handles of the object it destroys: an assignment like h = h->next, whose source goes with the object that h was the last to hold, reads the source after its end (znet/common/reference.h:118-138, release in front of the copy). The contract is about assignments whose source is not inside that object, nor inside one that goes with it.
- Variant.Encode: string lengths below 10^6, whose digits and the colon with its end fit the prefix buffer of sizeof(size_t) = 8 bytes (znet/common/variant.h:175); with 4 bytes the bound would be 100.
- Variant.PrintAndParse: the same bound on the strings in a value.
- Variant.DecodeStr: lengths that overflow the conversion or an int, and reading behind the end of the buffer, are left out.
- OpenList.OpenHeap.Push: cells are pairs of integers instead of 16-bit halves of a key; costs are real numbers.
- AStar.CMAStar.Search: coordinates are integers, costs real numbers, the limit test a fixed predicate, and the start is not the coordinate that stands for no predecessor. Shortest paths are not promised: the estimate exceeds diagonal ways, and `AStar.NoWorse` bounds what that can cost.
- Graphs.CGGraph.Clone: labels are left out, and the copies have addresses of their own kind.
- Graphs.CGGraph.AddEdge: both ends are numbers of nodes, as the code demands of its callers.
- RwLock.Run: the atomic steps take effect in one order for all threads.
- The header slot of an index page is modelled as fields beside the entries, and the first_slice flag of a data slice is not modelled.
- great_equal_key, walking from a key, next_key, PageLogger, checkpoints that fail, monitors, page browser and rebuild.
- Performance counters but for the two that give record_count.
- Files, clocks and random numbers: a file is a map from page numbers to pages, times are parameters.
- RWLock::Keeper and the queries of RWLock, GAStar, collision geometry, network and thread plumbing.
