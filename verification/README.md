# Verified models of LMDB and of the rkx cipher

Dafny models of the storage engine under `liblmdb/` and of the AES code of
`src/aes.c`, with proofs of what they promise.  Verify the project with
`dafny verify dfyconfig.toml`, which sets the options the proofs are tuned for: a
resource limit of 2 million, and `--warn-contradictory-assumptions`.

The configuration is fixed: 64-bit, page sizes from 4096 to 32768 bytes, no
MDB_VL32, no WRITEMAP, PAGEBASE 0, page header 16 bytes, node header 8 bytes,
keys of at most 511 bytes, AES-128.

The modules, area by area:

- **Snapshots and pages** (`Protocol`, `ProtocolInv`, `ProtocolSafety`,
  `ProtocolContents`, `ProtocolScan`): a transition system of readers, one
  writer at a time, the allocator, commit sequence and crashes.  Actors
  interleave at single loads and stores; the scan of the reader table reads one
  field at a time.  What a snapshot holds is told from the steps of the run.
- **B+tree** (`PageFormat`, `Keys`, `Items`, `PageSplit`, `Tree` and the
  `Tree...` modules): search, put with splits, delete with merges and node moves,
  on trees of pages with byte-exact sizes; `TreeDb.Database` is the database
  record with its counters, and its methods are map operations.  `TreeFill`,
  `TreeLeaves` and `TreeDelLeaves` say in bytes which pages are split, refilled
  and merged, and what becomes of each leaf.
- **Pages as bytes** (`SlottedPage`, `PageOps`, `TreeBytes`): node insertion,
  deletion and re-keying on the byte array, as insertion, removal and update of a
  sequence; the bytes have room exactly where the tree modules say.
- **Cursors** (`Cursors`, `CursorTracking`): moving with its flags, and the
  adjustment of the other cursors of a database.
- **Lists of ids** (`IdSort`, `IdList`, `PageRuns`, `DirtyList`): the array code
  of `midl.c`, and the page-range search of the allocator.
- **Free list** (`FreelistSave`, `SaveRefines`): reservation and fill-in without
  losing a page, and that they do what the protocol's save step does.
- **Nested transactions** (`Nested`, `DirtyCommit`): layered page lookup and the
  allocator's saved state as a state machine, and the array code of a child's
  commit, which computes its step.
- **Compacting copy** (`Compact`, `CompactRead`, `CompactWalk`): recursive copy,
  a reader of the written file that knows only page numbers, and the walk with an
  explicit stack that computes the copy.
- **AES** (`AesTables`, `AesField`, `AesSbox`, `AesCipher`, `AesSteps`,
  `AesKeys`, `AesVectors`, `AesChain`, `AesCounter`, `AesModes`, `AesContext`):
  FIPS 197, with its example, and the CBC and CTR modes of NIST SP 800-38A; the
  functions say what a step is, the methods run it in place.
- **Dump and load** (`DumpFormat`, `DumpPrint`, `LoadLine`, `LoadInput`,
  `LoadSection`): the printers of `mdb_dump`, and `readline` of `mdb_load`.

Where the code changes state step by step, a method with the code's loops is
proved against a function, and the promises are proved about that function.

What the proofs show beyond the documentation:

- A split whose scan is skipped (many keys, a small new node) can leave the
  receiving half without room, and the put fails with MDB_PAGE_FULL.
  `PageSplit.SkippedScanOverflows` and `PageSplit.SkippedScanOverflowsBranch` give
  such pages; `TreeJams.PutFailsInLeaf`, `TreeJams.PutFailsInBranch` and
  `TreeJams.DeleteFails` are well-formed trees on which a put and a deletion fail.
  `PageSplit.SplitFitsExactly`, `TreeDb.PutFullExactly` and
  `TreeDb.DelJamsExactly` say exactly when it happens to a page, a put and a
  deletion, and `TreeJams.RoomyPut` and `TreeJams.RoomyDelete` give a condition
  on the pages of the path under which it does not.
- A branch split at the position of the new node fits only because the first key
  of the right page is dropped.
- With 32768-byte pages a branch of two nodes can be under PAGEFILL 1, so a
  branch that has enough keys can still be rebalanced.
- The two meta pages carry consecutive ids only from the first commit on; a new
  environment has id 0 in both (`ProtocolSafety.MetaIds`).
- A reader that copies its meta page late can read a later snapshot than the id
  it published (`lmdb.h:112-114`).  It is still isolated:
  `ProtocolSafety.ReaderSnapshot` says which snapshot it gets,
  `ProtocolSafety.SuspendedReaderSeesLaterSnapshot` is a run where it happens.
- A parent's spill list can hold a deleted (odd) slot more than once after
  several child commits; the lookups stay correct.
- `midl.h:89-92` says that the search returns the first id greater than or equal
  to the one sought.  The lists are descending, and the code returns the first
  position whose id is less than or equal to it.
- With `-T`, `mdb_load` does not skip the leading space that `mdb_dump` prints
  (`DumpFormat.ReadWithoutHeader`).
- CBC on a length that is not a multiple of 16 works on whole blocks that cover
  it; the round trip holds there too.

## Model

| member | source | states |
|---|---|---|
| ProtocolSafety.SnapshotIsolation | liblmdb/mdb.c:2592-2599 | In every interleaving of readers, one writer, spills, flushes and aborts, each page of a reader's snapshot reads from its meta copy to its end what that snapshot committed |
| ProtocolSafety.AllocationSafe | liblmdb/mdb.c:2489-2679 | No page that is handed out (loose, reclaimed from freeDB, or at mt_next_pgno) is used by a live reader's snapshot or by either of the last two snapshots, even with a stale me_pgoldest |
| ProtocolSafety.WritesOutsideSnapshots | liblmdb/mdb.c:3726-3952 | Short of a crash, a page of the file changes only if no live snapshot uses it; the writer with id N writes outside snapshots N-1 and N-2 |
| ProtocolSafety.CrashRecovers | liblmdb/mdb.c:4158-4177 | A crash at any step, with any subset of unsynced page writes lost or garbled, recovers snapshot N-1 before the meta write of N and exactly N after it (its contents: ProtocolContents.CrashHolds) |
| ProtocolSafety.MetaIds | liblmdb/mdb.c:4341-4465 | The meta pages carry consecutive ids, each in slot id mod 2, if and only if there has been a commit |
| ProtocolSafety.PagesConserved | liblmdb/mdb.c:3501-3718 | Every page from 2 below mt_next_pgno has exactly one owner: in a snapshot a tree or one freeDB record; in a transaction, at every point before its meta page is written, the trees, mt_free_pgs, the loose list, me_pghead or a freeDB record, and from the save on the three lists are empty |
| ProtocolSafety.AbortChangesNothing | liblmdb/mdb.c:3369-3460 | An aborted transaction leaves the meta pages, the history and every page of the last snapshot as they were |
| ProtocolSafety.ReaderSnapshot | liblmdb/mdb.c:3113-3118 | A reader that has re-checked the id t and then copies meta t mod 2 gets a committed snapshot k >= t, and k is t exactly when at most one commit came between |
| ProtocolSafety.SuspendedReaderSeesLaterSnapshot | liblmdb/lmdb.h:112-114 | A run that shows the documented exception: a reader with id 0 whose snapshot is number 2 |
| ProtocolSafety.HistoryGrows | liblmdb/mdb.c:4341-4465 | Committed snapshots are never rewritten |
| ProtocolSafety.RunInv | liblmdb/mdb.c:3957-4195 | The protocol invariant holds in every reachable state |
| ProtocolContents.CommitHolds | liblmdb/mdb.c:3726-3952 | What a commit writes, told on the steps of the run: a page is in snapshot N exactly if the page operations put it there or it was in N-1 and they did not take it out; it has the content that they gave it last, and if they gave it none, that of snapshot N-1, whatever was spilled, unspilled and flushed in between |
| ProtocolContents.CrashHolds | liblmdb/mdb.c:4158-4177 | After a crash that follows the meta write of N, before another one, the file has those contents |
| ProtocolContents.ReaderHolds | liblmdb/mdb.c:2592-2599 | A reader of snapshot N finds those contents in the file, however many transactions have come and gone since |
| ProtocolScan.ScanFindsOldest | liblmdb/mdb.c:2430-2446 | A scan of the reader table that no other step interrupts gives the least of the ids in use, and the last committed one if there is none or none is older |
| ProtocolInv.StepInv | liblmdb/mdb.c:3049-3181 | Each step of each actor keeps the invariant: reader steps, the slot-by-slot scan, page operations, spill, save, flush, sync, meta write, abort, death, crash |
| ProtocolInv.OldRecordUnused | liblmdb/mdb.c:2550-2599 | A freeDB record older than the cached oldest reader lists only pages that no live snapshot uses |
| ProtocolInv.AllocatedUnused | liblmdb/mdb.c:2489-2679 | What one page operation allocates is used by no live snapshot |
| ProtocolInv.CopyMetaBound | liblmdb/mdb.c:3113-3118 | Which snapshot the meta slot of a validated id can hold by the time it is copied |
| ProtocolInv.PickMetaIsLast | liblmdb/mdb.c:4472-4477 | The newer of the two meta pages is the last committed snapshot |
| Keys.CmpMemn | liblmdb/mdb.c:5974-5989 | The sign of the comparison is the lexicographic order on byte strings, and 0 only for equal keys |
| Keys.LtTotal | liblmdb/mdb.c:5974-5989 | The key order is total and irreflexive |
| Keys.LtTrans | liblmdb/mdb.c:5974-5989 | The key order is transitive |
| Keys.LtIs | liblmdb/mdb.c:5974-5989 | A key is below another exactly if it is a proper prefix of it, or has the smaller byte, as a number, at the first index where they differ |
| Items.LookupIsMap | liblmdb/mdb.c:6850-6873 | Searching a sorted sequence of entries is looking a key up in the map they stand for |
| Items.UpsertIsUpdate | liblmdb/mdb.c:10146-10172 | Replacing or inserting an entry is map update |
| Items.RemoveIsRemoval | liblmdb/mdb.c:9673-9712 | Removing an entry is map removal |
| TreeSearch.AllSorted | liblmdb/mdb.c:6532-6609 | Local separator bounds imply that the in-order contents of the whole tree are strictly ascending |
| TreeSearch.NodeSearch | liblmdb/mdb.c:6025-6113 | The binary search returns the first node not below the key, starting at node 1 in branches, and says whether it is equal |
| TreeSearch.FindChild | liblmdb/mdb.c:6532-6609 | The descent takes the child whose separators enclose the key |
| TreeSearch.Get | liblmdb/mdb.c:6850-6873 | The search from the root finds exactly what a search of all entries in order would find |
| PageSplit.FindSplit | liblmdb/mdb.c:9893-9923 | The scan loop computes the specified split index, in both directions and with its early exit |
| PageSplit.SplitPointIs | liblmdb/mdb.c:9893-9923 | Where the cut is, in numbers: the middle if the page has at least psize/128 nodes, the new one is at most a sixteenth of the page and it is not the last; else as many nodes on the left (right) as have room, up to the index that the code allows |
| PageSplit.ScanSplitFits | liblmdb/mdb.c:9893-9923 | Whenever the scan runs on entries of at most half a page, neither half is empty and both fit |
| PageSplit.SplitFitsExactly | liblmdb/mdb.c:9893-9935 | Both halves fit if and only if the scan runs or the half that receives the new node has room |
| PageSplit.SkippedScanOverflows | liblmdb/mdb.c:9893-9923 | With 4096-byte pages, 16 small and 16 large nodes and a new node of 254 bytes, the scan is skipped and a half overflows |
| PageSplit.SkippedScanOverflowsBranch | liblmdb/mdb.c:9893-9935 | With 4096-byte pages, the branch node sizes 10, 16 times 12 and 15 times 256 with a 254-byte node at index 20 make the scan be skipped and a half overflow |
| TreePutProof.PutTreeHolds | liblmdb/mdb.c:7626-8153 | A put that does not fail leaves exactly the updated entries in a well-formed tree: order, separators, uniform depth, at least two children a branch, no overfull page, at most one split at the top |
| TreePutProof.PutLeafHolds | liblmdb/mdb.c:7940-8040 | The same for one leaf, on replacement in place, replacement by delete and insert, insertion and split |
| TreePutProof.SplitHolds | liblmdb/mdb.c:9726-10143 | A branch split keeps the entries and both halves' invariants, with the separator moved up |
| TreePutProof.AddKidHolds | liblmdb/mdb.c:9937-9960 | Adding the separator to the parent, with or without a split of the parent |
| Tree.OvPagesLeast | liblmdb/mdb.c:1080 | OVPAGES is the least number of pages that have room for a page header and the data |
| TreePut.PutEntryStored | liblmdb/mdb.c:7943-8010 | How the entry is kept: on its overflow pages if they are writable and have room for a page header and the data, else in the node exactly if two such nodes with their pointers fit on a page, else on the least number of new overflow pages |
| TreeLeaves.PutLeaves | liblmdb/mdb.c:7626-8153 | Page by page: one leaf takes the entry, and is cut at its split point if it no longer fits; every other leaf stays as it was |
| TreeDelProof.RoomToMerge | liblmdb/mdb.c:9520-9538 | From the PAGEFILL and minimum-key tests alone, a merged page fits, its expanded first key included |
| TreeDelProof.RoomToMoveLeft | liblmdb/mdb.c:9050-9054 | A node moved from the left neighbour fits into the destination, its expanded first key included |
| TreeDelProof.RoomToMoveRight | liblmdb/mdb.c:9050-9054 | A node moved from the right neighbour fits into the destination |
| TreeDelProof.MergeHolds | liblmdb/mdb.c:9194-9329 | Merging two pages keeps the entries and gives a well-formed page |
| TreeDelProof.MoveLeftHolds | liblmdb/mdb.c:8965-9183 | Moving a node from the left neighbour keeps the entries, the order and the new separator's bounds |
| TreeDelProof.MoveRightHolds | liblmdb/mdb.c:8965-9183 | The same from the right neighbour |
| TreeDelProof.UpdateKeyHolds | liblmdb/mdb.c:8875-8941 | Replacing a separator, in place or by delete and split, keeps the entries |
| TreeDelProof.RebalanceHolds | liblmdb/mdb.c:9361-9541 | Rebalancing one page within its parent keeps the entries and restores the page's invariant |
| TreeFill.RebalanceTells | liblmdb/mdb.c:9369-9538 | When a page is left alone, in bytes: a leaf with an entry and a quarter full, a branch with two nodes and a thousandth full. Otherwise its neighbour (the left one, for the first page the right one) gives it its nearest node if it is that full itself and has a node to spare, and else the two become one page; the other pages stay |
| TreeDelete.DelTree | liblmdb/mdb.c:9545-9647 | After a deletion the entries are those before without the key, and every page but possibly the top one is well-formed |
| TreeDelete.KidDone | liblmdb/mdb.c:9545-9647 | One level of the way back from the leaf |
| TreePages.PutCounts | liblmdb/mdb.c:8289-8313 | Leaf and branch pages after a put are those before plus the new pages of its splits |
| TreePages.RebalanceCounts | liblmdb/mdb.c:9194-9329 | A rebalance takes off one page of the kind it merged, and adds what a split of the parent adds |
| TreePages.DelCounts | liblmdb/mdb.c:9545-9647 | Leaf and branch pages after a deletion |
| TreeDelLeaves.DelTreeLeaves | liblmdb/mdb.c:9545-9647 | Carried to the leaf on the path: it loses the key, and is left so only if it is the root or then has an entry and is a quarter full; otherwise it gets one entry of a neighbour that can spare it, or the two are joined; every other leaf stays as it was |
| TreeDb.PutFullExactly | liblmdb/mdb.c:9893-9960 | A put fails with MDB_PAGE_FULL if and only if a page on its way is split, the scan is skipped and the receiving half has no room |
| TreeDb.RebalanceJamsExactly | liblmdb/mdb.c:9361-9541 | A rebalance fails if and only if the separator of a moved node forces such a split of the parent: neither a merge nor a move itself ever lacks room |
| TreeDb.DelJamsExactly | liblmdb/mdb.c:9545-9647 | A deletion fails if and only if that happens at some page on the way back from the leaf |
| TreeJams.PutFailsInLeaf | liblmdb/mdb.c:9893-9935 | A put of a new key into a well-formed leaf of 16 small and 16 large entries fails with MDB_PAGE_FULL |
| TreeJams.PutFailsInBranch | liblmdb/mdb.c:9893-9960 | A put into a well-formed tree of two levels fails because the leaf splits and the branch above it cannot take the separator |
| TreeJams.DeleteFails | liblmdb/mdb.c:9050-9054 | Deleting the only entry of a leaf fails: the entry moved in from the left neighbour brings a separator that the crowded branch cannot take |
| TreeJams.RoomyPut | liblmdb/mdb.c:9893-9935 | No put fails when the new node is above a sixteenth of the page, or the leaf has fewer than psize/128 nodes or room for the node, and each branch on the way has fewer than psize/128 nodes, room for the largest separator, or only long keys below it, the new one included (branch nodes above a sixteenth of the page) |
| TreeJams.RoomyDelete | liblmdb/mdb.c:9361-9541 | No deletion fails when each branch on its way has fewer than psize/128 nodes, room for the largest separator, or only long keys below it (branch nodes above a sixteenth of the page) |
| TreeDb.ForkHolds | liblmdb/mdb.c:9762-9787 | The new root above a split root is well-formed and has the same entries |
| TreeDb.ShrunkRoot | liblmdb/mdb.c:9388-9467 | A root page that has shrunk: emptied, replaced by its only child, or still a root |
| TreeDb.NewRoot | liblmdb/mdb.c:7626-8153 | Entries as a map, depth, leaf, branch and overflow pages after a put, root split included |
| TreeDb.PutRoot | liblmdb/mdb.c:9762-9787 | The root after a put: the tree as it has grown, or a new root above its halves, one page and one level more |
| TreeDb.DelRootHolds | liblmdb/mdb.c:9388-9467 | The same after a deletion, root collapse included |
| TreeDb.AfterPut | liblmdb/mdb.c:7626-8153 | The counters computed for a put are the exact counts of the new tree; which entry is new, how it is kept (overflow pages in bytes), and which leaf has taken it |
| TreeDb.AfterDel | liblmdb/mdb.c:9545-9647 | The counters computed for a deletion are the exact counts of the new tree; which leaf lost the key, and how it was refilled |
| TreeDb.Database.constructor | liblmdb/mdb.c:6645-6730 | A database without a root is the empty map, its counters exact |
| TreeDb.Database.Find | liblmdb/mdb.c:6850-6873 | mdb_get is lookup in the map, with its error codes |
| TreeDb.Database.Put | liblmdb/mdb.c:10146-10172 | mdb_put is map update with every error code told exactly, and an invariant that ties each MDB_db field to the tree and gives every entry overflow pages with room for it; the entry is kept as PutEntryStored says, and the leaf pages change as PutLeaves says |
| TreeDb.Database.Delete | liblmdb/mdb.c:9673-9712 | mdb_del is map removal with every error code told exactly, and the same invariant; the leaf pages change as DelTreeLeaves says |
| TreeDb.Database.Start | liblmdb/mdb.c:7696-7716 | The first entry makes a root leaf |
| TreeDb.Database.Write | liblmdb/mdb.c:7626-8153 | The put on an existing root, with exactly when it fails |
| TreeDb.Database.Erase | liblmdb/mdb.c:9545-9647 | The deletion on an existing root, with exactly when it fails |
| Cursors.PageItems | liblmdb/mdb.c:6532-6609 | The entries under a page of the tree are a run of all entries, at the page's offset |
| Cursors.Sibling | liblmdb/mdb.c:6884-6938 | The sibling page is the next (previous) one of its level, and there is none exactly at the end |
| Cursors.First | liblmdb/mdb.c:7313-7356 | mdb_cursor_first: the first entry, with C_INITIALIZED set and C_EOF cleared |
| Cursors.Last | liblmdb/mdb.c:7360-7400 | mdb_cursor_last: the last entry, with C_INITIALIZED and C_EOF set |
| Cursors.Next | liblmdb/mdb.c:6942-7026 | mdb_cursor_next with C_INITIALIZED, C_EOF and C_DEL: one entry on, the same one after a deletion, the first for a new cursor; MDB_NOTFOUND exactly when there is none or C_EOF still stands |
| Cursors.Prev | liblmdb/mdb.c:7030-7111 | mdb_cursor_prev with its flags: one entry back, the last for a new cursor; MDB_NOTFOUND exactly when none is before |
| Cursors.Traverse | liblmdb/mdb.c:6942-7026 | A new cursor moved on until MDB_NOTFOUND yields every entry once, in key order |
| Cursors.TraverseBack | liblmdb/mdb.c:7030-7111 | A new cursor moved back until MDB_NOTFOUND yields every entry once, in reverse order |
| Cursors.RankOf | liblmdb/mdb.c:6942-7026 | The entry at a position is the one of its rank |
| CursorTracking.InsertTracked | liblmdb/mdb.c:8039-8058 | After an insert into a leaf every other tracked cursor denotes the entry it denoted |
| CursorTracking.SplitTracked | liblmdb/mdb.c:10082-10133 | After a leaf split whose parent has room every other tracked cursor denotes the entry it denoted |
| CursorTracking.SplitSibling | liblmdb/mdb.c:10127-10130 | So do cursors below other children of the same parent |
| CursorTracking.SplitCursor | liblmdb/mdb.c:10046-10080 | The inserting cursor ends at the new entry |
| CursorTracking.RootSplitTracked | liblmdb/mdb.c:10098-10113 | The same when the split leaf was the root |
| CursorTracking.AdjustForSplit | liblmdb/mdb.c:10082-10133 | The loop over the cursors applies that adjustment to each |
| CursorTracking.AdjustForInsert | liblmdb/mdb.c:8046-8056 | The loop over the cursors after an insert applies its adjustment to each |
| SlottedPage.AddLayout | liblmdb/mdb.c:8450-8490 | Adding a node keeps the nodes packed, even-aligned and apart, in [upper, psize) |
| SlottedPage.DelLayout | liblmdb/mdb.c:8543-8557 | Deleting a node moves those below over it and keeps the layout |
| SlottedPage.KeyLayout | liblmdb/mdb.c:8903-8941 | Changing a key moves the nodes below by the difference and keeps the layout |
| SlottedPage.NodeReads | liblmdb/mdb.c:8461-8490 | A node's header, key and data read back as they were written |
| PageOps.Page.constructor | liblmdb/mdb.c:8289-8313 | A new page has no nodes, and its room is the page without the header |
| PageOps.Page.AddNode | liblmdb/mdb.c:8445-8501 | On bytes, pointers included: insertion at the index when the node and its pointer fit, and MDB_PAGE_FULL with nothing changed exactly when not |
| PageOps.Page.NodeAddLeaf | liblmdb/mdb.c:8382-8501 | mdb_node_add on a leaf, inline and overflow data |
| PageOps.Page.NodeAddBranch | liblmdb/mdb.c:8382-8501 | mdb_node_add on a branch |
| PageOps.Page.NodeSize | liblmdb/mdb.c:8533-8541 | The size read from the header is the size of the node |
| PageOps.Page.NodeDel | liblmdb/mdb.c:8509-8558 | On bytes, pointers included: removal at the index; the room grows by the node and its pointer; every other node keeps its bytes |
| PageOps.Page.UpdateKey | liblmdb/mdb.c:8875-8941 | On bytes: the key at the index is replaced and everything else kept, or the split path taken exactly when the growth does not fit |
| PageOps.Memmove | liblmdb/mdb.c:8553-8554 | Overlapping ranges are copied as if through a buffer |
| TreeBytes.EntrySize | liblmdb/mdb.c:8327-8338 | mdb_leaf_size is the size of the node that is written, and its pointer |
| TreeBytes.LeafRoom | liblmdb/mdb.c:8327-8338 | The room of a leaf as bytes is what the tree model counts |
| TreeBytes.BranchRoom | liblmdb/mdb.c:8351-8363 | The room of a branch as bytes is what the tree model counts |
| TreeBytes.AddEntryNode | liblmdb/mdb.c:8382-8501 | On the bytes of a leaf mdb_node_add fails exactly when the tree model has no room for the entry, and otherwise inserts it |
| TreeBytes.DelEntryNode | liblmdb/mdb.c:8509-8558 | On the bytes of a leaf mdb_node_del removes the entry of the tree model |
| TreeBytes.AddKidNode | liblmdb/mdb.c:8382-8501 | On the bytes of a branch mdb_node_add fails exactly when the tree model has no room for the separator |
| TreeBytes.UpdateKidNode | liblmdb/mdb.c:8903-8941 | On the bytes of a branch mdb_update_key falls back to the split exactly where the tree model does |
| FreelistSave.Saver.Reserve | liblmdb/mdb.c:3571-3666 | No page is lost or doubled, whatever the touches of freeDB take, free or read in; when the loop ends, total_room is the summed room of the empty records up to pglast and suffices for me_pghead and the loose pages, and the own record holds exactly the freed pages |
| FreelistSave.Saver.Save | liblmdb/mdb.c:3501-3718 | Afterwards each page there was, and each taken from the end of the file meanwhile, is on exactly one list of one record or used by freeDB itself, as often as before; the records up to pglast list exactly the reclaimed and loose pages as the last touch left them, the own record the freed ones; records in between are untouched |
| FreelistSave.Saver.Touch | liblmdb/mdb.c:2694-2765 | A touch of freeDB pages that may take from the lists, free pages and read records in keeps the sum of all pages |
| FreelistSave.SavedPool | liblmdb/mdb.c:3668-3716 | What the fill-in has put on the records, with the freed pages, the unread records and freeDB's own pages, is the pages there were |
| FreelistSave.Saver.DropUsed | liblmdb/mdb.c:3577-3590 | Records that have been read, and those reserved before, are deleted, and the accounting starts anew; the pages of the read ones are all accounted for |
| FreelistSave.Saver.SaveFreed | liblmdb/mdb.c:3592-3625 | The freed pages are written once no touch adds to them any more; no page is lost |
| FreelistSave.Saver.ReserveOne | liblmdb/mdb.c:3634-3666 | Rewriting the record at head_id keeps the room accounting and every page, whatever the touches do |
| FreelistSave.Resized | liblmdb/mdb.c:3634-3666 | The room of the record at head_id in numbers: a full record is left alone and the next id down taken; otherwise the missing room, spread over the ids down to 1 if it is more than a page and head_id is not 1; total_room is what the other records have and this |
| FreelistSave.Amortize | liblmdb/mdb.c:3645-3648 | The amortized room fills whole pages, and is at least an equal share and less than a page more |
| FreelistSave.ReturnLoose | liblmdb/mdb.c:3671-3688 | The loose pages are sorted in the spare tail of me_pghead and merged in; tail and merge target do not overlap |
| FreelistSave.FillOne | liblmdb/mdb.c:3698-3714 | The overwrite-and-restore of the length slot writes one record and leaves the list as it was |
| FreelistSave.FillIn | liblmdb/mdb.c:3690-3716 | The fill-in stores every page of the list in exactly one record, and leaves the list as it was |
| FreelistSave.Distribute | liblmdb/mdb.c:3668-3716 | Merge and fill-in together |
| SaveRefines.SavedIsDistribution | liblmdb/mdb.c:3571-3716 | What Saver.Save ensures is what the protocol asks of the save: keys from 1 to me_pglast, each reclaimed or loose page under exactly one, if no page was in two places before |
| SaveRefines.SavedRecords | liblmdb/mdb.c:3571-3716 | The records afterwards are those of the protocol's save step: its distribution, the record of the freed pages, and the untouched later ones |
| SaveRefines.SaveStep | liblmdb/mdb.c:3501-3718 | Both of a call of Saver.Save, for every writer state that the lists at its end stand for |
| SaveRefines.DistCovers | liblmdb/mdb.c:3690-3716 | A page is on the joined lists of the records exactly if it is under one of their keys |
| IdSort.Sort | liblmdb/midl.c:221-279 | The in-place quicksort returns a descending permutation, within 64 stack slots |
| IdSort.Divide | liblmdb/midl.c:245-276 | One partition step keeps the bookkeeping of the pending segments |
| IdSort.Partition | liblmdb/midl.c:245-266 | Median of three and the two scans part a segment around the pivot, within its bounds |
| IdSort.InsertionSort | liblmdb/midl.c:232-240 | Small segments: sorted in place, although the inner loop is bounded by 1 and not by l |
| IdSort.DepthBound | liblmdb/midl.c:223-224 | A segment that is still divided is at depth 27 at most |
| IdSort.PushedShallow | liblmdb/midl.c:267-276 | Segment size times 2 to the depth never exceeds n |
| IdList.IdList.constructor | liblmdb/midl.c:104-112 | A new list is empty with the given capacity |
| IdList.IdList.Grow | liblmdb/midl.c:131-141 | Growing keeps the ids |
| IdList.IdList.Need | liblmdb/midl.c:143-155 | Afterwards there is room; reallocation happens exactly when there was not, to blocks of 256 words |
| IdList.IdList.Append | liblmdb/midl.c:157-169 | Appending, with growth when full |
| IdList.IdList.AppendList | liblmdb/midl.c:171-183 | Appending a list |
| IdList.IdList.AppendRange | liblmdb/midl.c:185-199 | Appending a run of pages in descending order |
| IdList.IdList.Search | liblmdb/midl.c:34-67 | The position of the id in the descending list, or where it belongs |
| IdList.IdList.Sort | liblmdb/midl.c:221-279 | Sorting the list |
| IdList.IdList.Xmerge | liblmdb/midl.c:201-213 | The backward merge in place is a descending list with exactly the ids of both |
| IdList.MergeTo | liblmdb/midl.c:201-213 | The same with the merged list in the tail of the same array |
| IdList.StrictUnique | liblmdb/midl.c:201-213 | A strictly descending list is determined by its members |
| IdList.DisjointStrict | liblmdb/midl.c:201-213 | Lists without a common id merge into a strictly descending one |
| PageRuns.RunTest | liblmdb/mdb.c:2539-2545 | The test mop[i-n2] == pgno+n2 holds exactly if the num pages from pgno are all there |
| PageRuns.FindRun | liblmdb/mdb.c:2536-2548 | The search finds the lowest run of num pages, and nothing only if there is none |
| PageRuns.TakeRun | liblmdb/mdb.c:2662-2666 | Exactly the run leaves the list |
| PageRuns.Reclaim | liblmdb/mdb.c:2536-2668 | Search and removal together; the list stays strictly descending |
| PageRuns.GiveBack | liblmdb/mdb.c:6791-6798 | The pages of a freed overflow page go in at their place, and nothing else changes |
| Nested.PageGet | liblmdb/mdb.c:6464-6526 | The lookup through dirty and spill lists of the chain, and the level it reports |
| Nested.ApplyReads | liblmdb/mdb.c:2714-2868 | What a page step does to what the transaction reads: allocating, reusing or writing a page makes its read the content given; spilling, unspilling, copying, freeing, loosening and reading records in change the read of no page |
| Nested.RunReads | liblmdb/mdb.c:6464-6526 | Over every run of page steps, begins and commits a page reads as the steps last gave it, or as before if they did not |
| Nested.CommitKeepsReads | liblmdb/mdb.c:3989-4117 | After a child commits, the parent reads for every page what the child saw |
| Nested.AbortRestores | liblmdb/mdb.c:3369-3460 | Whatever a child and its own children allocate, touch, free, spill and read in, its abort gives the parent back as it was, roots, lists and allocator, and every page the parent had in use, each page of its tree in particular, reads as before |
| Nested.HandedApart | liblmdb/mdb.c:2489-2679 | A page that a child can be handed is held by no transaction of the chain, in the tree of none, and on no list of pages they gave up |
| Nested.AvailIsFree | liblmdb/mdb.c:2489-2679 | What me_pghead, the unread records and the end of the file still offer is held by no ancestor |
| Nested.ChainConserves | liblmdb/mdb.c:3275-3294 | In every run each page of the file is in exactly one place: the active tree, me_pghead, an unread record, or the freed and loose lists of the chain |
| Nested.RunKeeps | liblmdb/mdb.c:2714-2765 | Every run above a chain of transactions leaves the chain alone, and in the file every page it had in use and does not hold in memory |
| Nested.ApplyOk | liblmdb/mdb.c:2773-2868 | Each step keeps the lists of the chain consistent |
| Nested.BeginOk | liblmdb/mdb.c:3275-3294 | A child that starts with copies of the roots, me_pghead and mt_next_pgno keeps the chain consistent |
| Nested.RunOk | liblmdb/mdb.c:2714-2765 | The chain is consistent after every run of page steps, begins, commits and aborts |
| Nested.CommitOk | liblmdb/mdb.c:3989-4117 | So does a commit |
| Nested.SingleAncestorLength | liblmdb/mdb.c:4079-4081 | With one ancestor the length of the merged list is what mt_dirty_room says |
| DirtyList.Search2 | liblmdb/midl.c:281-314 | The position of the id in the ascending list, or where it belongs |
| DirtyList.Insert2 | liblmdb/midl.c:316-345 | Insertion in order; -1 for a duplicate, -2 when full, with nothing changed |
| DirtyList.MergeAscending | liblmdb/mdb.c:4082-4092 | The merged dirty list is strictly ascending |
| DirtyList.MergeIsOverride | liblmdb/mdb.c:4082-4092 | It is the parent's pages overridden by the child's |
| DirtyList.MergeDirty | liblmdb/mdb.c:4082-4092 | The backward merge never overwrites an unread entry, ends with i == x and gives that list |
| DirtyCommit.CountUnion | liblmdb/mdb.c:4064-4078 | The counting loop computes the length of the union |
| DirtyCommit.PurgeDirtied | liblmdb/mdb.c:4024-4043 | Exactly the pages dirty in the child leave the parent's spill list, which stays sorted |
| DirtyCommit.RemoveSpilled | liblmdb/mdb.c:4045-4062 | Exactly the pages spilled by the child leave the parent's dirty list |
| DirtyCommit.CommitDirty | liblmdb/mdb.c:4045-4092 | Removal and merge of the dirty lists |
| DirtyCommit.CommitSpill | liblmdb/mdb.c:4095-4106 | The spill lists are joined and sorted |
| DirtyCommit.CommitChild | liblmdb/mdb.c:4022-4106 | The array code as a whole computes the commit of the page-map model |
| Compact.CopyTreeIs | liblmdb/mdb.c:10303-10456 | The copied tree has the same keys and data; pages are numbered in post-order and each is written at its own number |
| CompactRead.ReadsBack | liblmdb/mdb.c:10303-10456 | A reader that follows the page numbers of the file, and nothing else, from the root of a written tree finds the tree |
| CompactRead.CopyReadsBack | liblmdb/mdb.c:10303-10456 | Reading the written pages from the new root gives the copy, with the keys, data and shape of the source database, its overflow data and the databases in it |
| Compact.EachNumberOnce | liblmdb/mdb.c:10303-10456 | The numbers of the file are taken by exactly one page each |
| Compact.SameExtent | liblmdb/mdb.c:10303-10456 | Copying keeps the number of pages |
| Compact.RootAsPredicted | liblmdb/mdb.c:10529-10550 | The predicted root is the actual one if and only if the reachable and free pages add up to the file |
| CompactWalk.CopyLeaf | liblmdb/mdb.c:10347-10407 | The loop over a leaf: overflow pages and databases within |
| CompactWalk.CWalk | liblmdb/mdb.c:10303-10456 | The walk with its explicit stack is the recursive copy |
| CompactWalk.CopyEnv | liblmdb/mdb.c:10460-10587 | The copy succeeds if and only if the main database is empty or the pages add up; then reading the file from its meta root, by page numbers alone, gives the contents and shape of the source, and the pages fill the file without gaps |
| AesTables.SboxInverse | src/aes.c:79-116 | rsbox undoes sbox, for all 256 bytes |
| AesSbox.SboxIs | src/aes.c:79-97 | The S-box is the affine map of section 5.1.1 of FIPS 197 applied to the inverse in the field (0 for 0), for all 256 bytes |
| AesSbox.MultiplyIs | src/aes.c:324-341 | Multiply is the product of polynomials modulo x^8 + x^4 + x^3 + x + 1, for a second factor below 32 |
| AesSbox.MixedIs | src/aes.c:300-313 | A byte of MixColumns is 2a + 3b + c + d with those products |
| AesSbox.UnmixedIs | src/aes.c:350-366 | A byte of InvMixColumns is 14a + 11b + 13c + 9d with those products |
| AesField.UnmixMixed | src/aes.c:300-366 | InvMixColumns undoes MixColumns, for every column |
| AesField.ThroughAdd | src/aes.c:300-366 | Mixing and unmixing is additive |
| AesCipher.UnshiftedShifted | src/aes.c:266-409 | InvShiftRows undoes ShiftRows |
| AesCipher.RowsMove | src/aes.c:266-292 | Row r moves r columns to the left, and back |
| AesCipher.UnmixedMixed | src/aes.c:300-366 | The same for whole blocks of four columns |
| AesCipher.RoundsUndone | src/aes.c:413-461 | The inverse rounds undo the rounds, one by one |
| AesCipher.DecryptedEncrypted | src/aes.c:413-461 | InvCipher undoes Cipher for every block and every 176-byte schedule |
| AesSteps.AddRoundKey | src/aes.c:237-247 | In place: exactly the block is changed, by the round key |
| AesSteps.SubBytes | src/aes.c:251-261 | In place: each byte of the block through the S-box, nothing else |
| AesSteps.InvSubBytes | src/aes.c:371-381 | In place: each byte through the inverse S-box |
| AesSteps.ShiftRows | src/aes.c:266-292 | In place: row j moves j columns to the left |
| AesSteps.InvShiftRows | src/aes.c:383-409 | In place: row j moves j columns to the right |
| AesSteps.MixColumns | src/aes.c:300-313 | In place: the four columns mixed |
| AesSteps.InvMixColumns | src/aes.c:350-366 | In place: the four columns unmixed |
| AesSteps.Cipher | src/aes.c:413-436 | The round loop is the cipher of section 5.1 of FIPS 197, on the block at the pointer |
| AesSteps.InvCipher | src/aes.c:439-461 | The round loop is the inverse cipher of section 5.3 of FIPS 197 |
| AesKeys.KeyExpansion | src/aes.c:146-217 | The 44 words of the expanded key satisfy the recurrence of section 5.2 of FIPS 197 |
| AesKeys.FourWordsTell | src/aes.c:160-217 | Any four consecutive words of the expanded key determine the key |
| AesKeys.RconPowers | src/aes.c:118-121 | The round constants are the powers of x |
| AesVectors.Example | src/aes.c:146-436 | The example of FIPS 197: the cipher key of appendix A.1 expands to its last round key, and encrypts the input of appendix B to its output |
| AesChain.UnchainedChained | src/aes.c:501-529 | CBC decryption undoes encryption for every vector and buffer, over any cipher with an inverse |
| AesChain.ChainedBlock | src/aes.c:501-514 | Block j is the encryption of its plaintext plus block j-1: section 6.2 of NIST SP 800-38A |
| AesChain.UnchainedBlock | src/aes.c:516-529 | Block j is the decryption of its ciphertext plus ciphertext block j-1 |
| AesChain.TwoCalls | src/aes.c:512-513 | Two calls on whole blocks are one: the context carries the last block over |
| AesCounter.NextValue | src/aes.c:552-563 | The carry loop adds one to the big-endian number, wrapping at its end |
| AesCounter.CounterValue | src/aes.c:549-563 | Block n is keyed by the vector plus n, modulo 2^128 big-endian |
| AesCounter.PlusModulo | src/aes.c:552-563 | That addition is addition modulo 2^128 |
| AesCounter.CountersDiffer | src/aes.c:549-563 | No counter occurs twice within 2^128 blocks |
| AesCounter.MaskedTwice | src/aes.c:538-569 | CTR undoes itself for every length |
| AesCounter.TwoCalls | src/aes.c:538-569 | Two calls are one when the first ends on a whole block |
| AesModes.EverySchedule | src/aes.c:413-461 | Every schedule gives a cipher and an inverse that undoes it |
| AesModes.CbcBetween | src/aes.c:501-529 | What one context encrypts in CBC mode, another with the same schedule and vector decrypts |
| AesModes.CtrBetween | src/aes.c:538-569 | The same in CTR mode, for every length |
| AesModes.CbcEncrypt | src/aes.c:501-514 | The loop with its moving vector pointer computes the chain and leaves the last block as the vector |
| AesModes.CbcDecrypt | src/aes.c:516-529 | The loop with its saved block computes the inverse chain |
| AesModes.IncrementIv | src/aes.c:552-563 | The carry loop computes the next counter |
| AesModes.CtrXcrypt | src/aes.c:538-569 | The byte loop masks byte k with byte k mod 16 of the encrypted counter k / 16, and advances the vector by the blocks used |
| AesContext.Context.constructor | src/aes.c:224-228 | The context of a key and a vector |
| AesContext.Context.CbcEncryptBuffer | src/aes.c:501-514 | The whole new buffer and vector; bytes beyond the blocks and the schedule are untouched |
| AesContext.Context.CbcDecryptBuffer | src/aes.c:516-529 | The same for decryption |
| AesContext.Context.CtrXcryptBuffer | src/aes.c:538-569 | The same for CTR |
| DumpFormat.UnhexHex | liblmdb/mdb_load.c:161-173 | unhex undoes hex for every byte |
| DumpFormat.HexIs | liblmdb/mdb_dump.c:50-56 | The two digits of a byte are the lower-case digits of its quotient and remainder by 16 |
| DumpFormat.UnhexIs | liblmdb/mdb_load.c:161-173 | Two digits, of either case, stand for 16 times the first and the second |
| DumpFormat.IsDigitIs | liblmdb/mdb_load.c:229-270 | The bytes taken as digits are the 22 hexadecimal digits of both cases |
| DumpFormat.BodyBack | liblmdb/mdb_load.c:229-270 | Decoding undoes printing for every byte string, in both formats |
| DumpFormat.BodyPlain | liblmdb/mdb_dump.c:58-90 | A printed line contains no newline and no 0 before its end |
| DumpFormat.ReadLine | liblmdb/mdb_load.c:175-275 | Reading a printed line gives the string and leaves what follows it |
| DumpFormat.ReadWithoutHeader | liblmdb/mdb_load.c:180-198 | Without a header the leading space is data in the print format, and an error in the other |
| DumpFormat.SectionBack | liblmdb/mdb_dump.c:129-146 | A dumped section is read back pair by pair, up to its end mark |
| DumpPrint.Printer.PutHex | liblmdb/mdb_dump.c:52-56 | Two lower-case digits, the high one first |
| DumpPrint.Printer.Text | liblmdb/mdb_dump.c:58-77 | The loop prints the specified line |
| DumpPrint.Printer.Byte | liblmdb/mdb_dump.c:79-90 | The loop prints the specified line |
| LoadLine.UnescapeText | liblmdb/mdb_load.c:233-253 | Decoding in place, the write pointer never passing the read pointer, is decoding; it fails exactly on a bad escape |
| LoadLine.UnescapeHex | liblmdb/mdb_load.c:254-270 | The same for pairs of digits; it fails exactly on an odd length or a byte that is not a digit |
| LoadInput.Loader.GetLine | liblmdb/mdb_load.c:200-228 | On any bytes, 0 bytes included: chunks are joined as strlen sees them, the buffer doubling until one ends in a newline; each kind of end, the line count and Eof are told |
| LoadInput.Loader.ReadMore | liblmdb/mdb_load.c:210-226 | One doubling: what has been read is kept and the next chunk, up to its first 0, goes behind it |
| LoadInput.PlainChunks | liblmdb/mdb_load.c:200-228 | The joined chunks of an input without 0 are what is before the newline |
| LoadInput.Loader.ReadMark | liblmdb/mdb_load.c:181-198 | The end mark is told from a bad line, whatever the bytes |
| LoadInput.Loader.ReadLine | liblmdb/mdb_load.c:175-275 | readline as a whole is the specified function of the input bytes, the Eof flag, line number and buffer size included |
| LoadInput.PlainRead | liblmdb/mdb_load.c:175-275 | Without a 0 byte in the input readline reads whole lines, whatever the size of its buffer |
| LoadSection.LoadPairs | liblmdb/mdb_load.c:420-429 | The loop reads exactly the pairs that the specified reader finds in any input bytes |
| LoadSection.PlainLoad | liblmdb/mdb_load.c:420-429 | Without a 0 byte in the input those are the pairs of the section's lines, whatever the buffers |
| LoadSection.LoadDumped | liblmdb/mdb_dump.c:129-146 | Loading a dump gives the same pairs, whatever the lengths of their lines |

## Left out

- Files, mmap, fsync, locks, threads and retry loops: atomic steps or
  nondeterministic outcomes; "validate the id" and "copy the meta page" of a
  reader are one step each, and a meta write is atomic.
- MDB_VL32, WRITEMAP, FIXEDMAP, PREVSNAPSHOT, NOLOCK, NOSYNC, NOTLS and NOMETASYNC modes.
- DUPSORT, LEAF2 and sub-pages, MDB_APPEND, MDB_RESERVE and MDB_MULTIPLE.
- Custom comparison functions: keys compare as in `mdb_cmp_memn`.
- A failing meta write, MDB_FATAL_ERROR, and the clearing of stale readers by pid.
- MDB_MAP_FULL, MDB_TXN_FULL, MDB_READERS_FULL and ENOMEM.
- Page sizes above 32768: page offsets would not fit 16 bits without wrap-around.
- The tree modules take pages as values inside their parents: page numbers,
  copy-on-write and updates in place are in the protocol, page and nested
  modules, not in these.
- Which pages `mdb_page_spill` chooses: any page that is not loose may be spilled.
- When `mdb_page_alloc` prefers a record, a run or the end of the file: every
  choice it could make is allowed, in the order the code demands for records.
- FreelistSave.Saver.Save: says nothing when the loop does not end; its end
  depends on what touching freeDB pages does, which is given as a finite list of
  outcomes, and the puts of the fill-in with MDB_CURRENT are taken not to change
  the lists.
- IdList.IdList.Append: does not model the wrap-around of list counts; lists are
  shorter than 2^31, and an absent list is the empty one.
- CursorTracking.SplitTracked: covers a parent with room for the separator; the
  adjustments when the parent splits as well, and on merges and deletions, are
  not modelled.
- CompactWalk.CWalk: does not model the two write buffers and the writer thread;
  its output is one sequence.
- LoadInput.Loader.ReadLine: leaves out a line whose first byte is 0, since the
  source then reads the byte before its buffer, and a buffer of less than 8
  bytes; `readhdr`, the puts of `mdb_load` and its batches are left out.
- AES-192, AES-256, the ECB wrappers and the commented-out code of `aes.c`.
- The network client, terminal interface and helpers of rkx, and its hash.
