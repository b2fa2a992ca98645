# Discrete: storage engine, AEAD and account numbers

A Dafny model of components that Discrete ships, with proofs of what they are for.

**LMDB's storage engine** (`external/liblmdb`). Readers publish a transaction id without a
lock while one writer reclaims pages; commits alternate between two meta pages.
`SnapshotProtocol` is that protocol as interleaved steps, down to single reads of a slot, with
un-synced writes and crashes; its moves of pages are those of `PageLedger`.
`CommittedContent` and `ProtocolProgress` say what its runs commit and that they get there. `IdList`,
`IdSort` and `DirtyList` are the ID lists of `midl.c`, in place on arrays. `RunList`,
`TxnState`, `WriteTxn`, `FreelistSave` and `FreelistFill` are the page allocator of a
top-level write transaction and the saving of its free lists: a class whose every operation is
a sequence of ledger moves, with the dirty and the spill list of `PageLists`. `SpillList`,
`NestedCommit`, `DirtyMerge` and `DirtyRoom` are the spill list and the commit of a nested
transaction. `Tiling`, `SlottedPage`, `Leaf2Page`, `SplitFit` and `PageSplit` are pages as byte
buffers with nodes on them; `BtreeSearch` is the lookup. `CopyHandoff` and
`CopyCompletes` are the two-thread compacting copy.

**ChaCha20-Poly1305** (`external/chacha20poly1305`). `PolySpec` is section 2.5 of RFC 8439 on
integers; `PolyLimbs`, `PolyFinish`, `PolyKey` and `PolyStream` are the 5 x 26-bit limb code
and its streaming context, with every 32-bit and 64-bit wrap-around written out. `ChaCha20` and
`Aead` are sections 2.3, 2.4 and 2.8; `CipherVectors` and `AeadVector` prove the examples of
the standard.

**Account numbers** (`include/AccountNumber.h`). `Decimal`, `Luhn` and `AccountNumber` are the
printer, the lenient parser and the check character; `TypoDetection` is what the check
character is for.

`Words`, `LittleEndian`, `Sequences`, `Memory` and `Wrappers` hold what several of these share.

## Reading the model

- Integers are unbounded; machine words wrap explicitly, by `U32`, `U64` or a remainder,
  and `Id` is the range of an unsigned 64-bit id. In `ChaCha20` and `Aead` words and bytes
  are bit vectors of 32 and 8 bits.
- The build options are the default ones: `MDB_DEVEL` is 0, so `PAGEBASE` is 0, and
  `MDB_VL32` is off. Memory is sequentially consistent and allocation does not fail. A reader's
  copy of a meta page is one step.
- `SnapshotProtocol` keeps the contents of pages twice: what any process reads from the map,
  and the set of contents a crash may leave on disk. A sync makes the two agree. Writing a meta
  page is one durable step.
- In `FreelistSave` the B-tree code under a cursor operation is a script of page
  allocations, touches, frees and spills. The theorems hold for every script, and a script that
  runs out counts as a failed operation, since the original promises no bound for its loop either.
  `Still` scripts are those of a B-tree that needs no pages; for them success is proved.
- `Txn.Ok` also ties the dirty and the spill list to the ledger: loose pages are dirty, a
  listed page and the run it starts are in a tree, loose or freed, and no two listed runs overlap.
- A spill list holds page numbers times two; an odd entry is a deleted one. Deleted entries
  can repeat, when a page is spilled and taken back in a transaction and in its child, so what is
  kept is the order and one live entry per page.
- `Txn.Ok` contains the ledger's conservation, so every method that keeps `Ok` conserves pages.
- Assertions of the code are proved, not required: `i == x` in a nested commit, a successful
  insert in `mdb_page_dirty`, a loose page being in the dirty list, a touched page changing its
  number, a key at most `me_pglast` while filling records.
- The header of the AEAD (`chacha20poly1305.h`, line 45) calls the output of a failed
  decryption unspecified; the code leaves it unwritten, and that is what is stated.
- `mdb_midl_sort` computes `(l + ir) >> 1` in `int` and takes the length as one. The result is
  that of unbounded integers; `fits` says whether the code had no overflow on the way, and what
  depends on the order is stated only if it fits.
- The comment above the split point (`mdb.c`, lines 9629-9643) says that it is checked so that
  `mdb_node_add` does not fail, also for pages whose halves differ in size. The test below it
  skips the check from 32 nodes on if the new one is small, and then the split can fail.

## Model

| member | source | states |
|---|---|---|
| SnapshotProtocol.ReadInv | external/liblmdb/mdb.c:3025-3045 | every step of a reader (claim a slot, load mti_txnid, store it in the slot, re-check, copy the meta page, end) keeps the protocol invariant, whatever the writer is doing |
| SnapshotProtocol.ReaderFreshness | external/liblmdb/mdb.c:3040-3045 | in every run a reader that passed the re-check copies a snapshot at least as new as the id it published, and no process's cached me_pgoldest exceeds that id |
| SnapshotProtocol.ScanInv | external/liblmdb/mdb.c:2366-2381 | each read of a pid, each read of a txnid and the end of the scan keep the invariant, in which the running minimum and the value cached in me_pgoldest are lower bounds for every reader that is or becomes active |
| SnapshotProtocol.BeginInv | external/liblmdb/mdb.c:3051-3081 | opening a write transaction on the meta page of mti_txnid, with nothing loose, freed or reclaimed, keeps the invariant |
| SnapshotProtocol.ConsumedFresh | external/liblmdb/mdb.c:2505-2531 | a page of a freeDB record whose key is below the cached oldest id is in no snapshot that a reader or a meta page holds |
| SnapshotProtocol.GivenFresh | external/liblmdb/mdb.c:2420-2605 | whatever mdb_page_alloc hands out (loose, reclaimed or new) is in no live snapshot |
| SnapshotProtocol.WorkInv | external/liblmdb/mdb.c:2420-2605 | allocating, touching, freeing, spilling and taking back pages keeps the invariant, including the contents of every live snapshot |
| SnapshotProtocol.UnspillReads | external/liblmdb/mdb.c:2645-2698 | a spilled page taken back reads as the transaction last wrote it |
| SnapshotProtocol.SaveInv | external/liblmdb/mdb.c:3420-3637 | writing the free lists as records keeps the invariant, in which a page listed under key k is in no live snapshot with an id from k on |
| SnapshotProtocol.FlushInv | external/liblmdb/mdb.c:3645-3795 | writing the dirty pages to the map keeps the invariant, so no page of a live snapshot changes |
| SnapshotProtocol.SyncInv | external/liblmdb/mdb.c:4013-4016 | a sync before the meta page keeps the invariant, in which the pages of the new snapshot are then durable |
| SnapshotProtocol.WriteMetaInv | external/liblmdb/mdb.c:4193-4297 | writing the meta page of the older slot keeps the invariant, in which both meta pages point to complete snapshots |
| SnapshotProtocol.EndInv | external/liblmdb/mdb.c:3323-3347 | a commit, an abort and the death of the writer keep the invariant and the newest meta page |
| SnapshotProtocol.CrashInv | external/liblmdb/mdb.c:4193-4297 | a crash that keeps any subset of the writes since the last sync keeps the invariant and the newest meta page |
| SnapshotProtocol.StepInv | external/liblmdb/mdb.c:2366-4297 | every step of every thread keeps the invariant |
| SnapshotProtocol.SnapshotIsolation | external/liblmdb/mdb.c:3040-3045 | in every interleaving each page of a snapshot that an active reader copied or a meta page points to still has the content it was committed with, and the snapshot accounts for all its pages |
| SnapshotProtocol.AllocationSafety | external/liblmdb/mdb.c:2505-2531 | in every interleaving mdb_page_alloc hands out no page of the roots a live reader copied nor of the two latest committed snapshots |
| SnapshotProtocol.ConservationInRuns | external/liblmdb/mdb.c:964-965 | in every run each page of the open write transaction is in exactly one place |
| SnapshotProtocol.CrashSafety | external/liblmdb/mdb.c:4307-4312 | whenever the system stops, the meta page picked at reopening is the last one written and every page it refers to has survived unchanged |
| SnapshotProtocol.NewestIntact | external/liblmdb/mdb.c:4307-4312 | without a writer mdb_env_pick_meta picks the snapshot of mti_txnid, complete |
| CommittedContent.CommitsLastContent | external/liblmdb/mdb.c:3759-3764 | in every run: once the meta page of a transaction is written, its snapshot has exactly the pages that the transaction's moves leave in the trees, each with the content that the last step for it since the transaction began gave it, or else the content it had in the snapshot the transaction began from; the map holds the same |
| CommittedContent.StepFollows | external/liblmdb/mdb.c:2645-2698 | each step between begin and commit, of the writer or of readers, keeps the writer's pages and their contents what the steps so far say, spilling and taking back included |
| ProtocolProgress.ReaderStarts | external/liblmdb/mdb.c:3040-3045 | a reader that no commit overtakes gets the last committed snapshot, under the id it published |
| ProtocolProgress.ReaderEnds | external/liblmdb/mdb.c:3310-3322 | a reader that ends holds no id any more, and nothing else changes |
| ProtocolProgress.ReaderRegisters | external/liblmdb/mdb.c:3018-3031 | a new slot with its pid set is ready for a reader, and nothing else changes |
| ProtocolProgress.MoveEnabled | external/liblmdb/mdb.c:2420-2605 | exactly when a move of pages is possible: the ledger allows it, a record consumed is below the cached oldest id, a loosened page is in memory, released pages were acquired in this transaction |
| ProtocolProgress.AllocationAllowed | external/liblmdb/mdb.c:2420-2605 | any sequence of moves out of the loose list, me_pghead and the map, with records below the oldest id, is a run of the protocol that ends in the same ledger |
| ProtocolProgress.GivenWritable | external/liblmdb/mdb.c:2601-2603 | pages handed out can be written |
| ProtocolProgress.UnspillWritable | external/liblmdb/mdb.c:2645-2698 | a spilled page can be taken back and then written |
| ProtocolProgress.SpillFrees | external/liblmdb/mdb.c:2322-2354 | a page in memory can be spilled, and is not in memory then |
| ProtocolProgress.ScanFinds | external/liblmdb/mdb.c:2366-2381 | a scan that is not disturbed caches the smallest of the published ids and the last committed one, exactly |
| ProtocolProgress.CommitRuns | external/liblmdb/mdb.c:4000-4019 | from any state of a working transaction the steps of a commit are possible one after the other; then mti_txnid has advanced by one, its meta page holds the trees, records and contents of the transaction, and the previous one is untouched |
| ProtocolProgress.AbortKeeps | external/liblmdb/mdb.c:3323-3347 | an abort only drops the writer |
| PageLedger.DoConserves | external/liblmdb/mdb.c:2420-2605 | each move of pages between trees, loose list, mt_free_pgs, me_pghead and freeDB records keeps every page number in [2, mt_next_pgno) in exactly one of them |
| PageLedger.OriginOf | external/liblmdb/mdb.c:2420-2605 | a page found somewhere after a move was moved there by it, stayed, or is newly added |
| PageLedger.RanConserves | external/liblmdb/mdb.c:1965-1969 | so does every sequence of moves |
| PageLedger.OpenedConserved | external/liblmdb/mdb.c:3059-3082 | a committed snapshot that accounts for its pages is a conserved starting point |
| PageLedger.SavedAccounted | external/liblmdb/mdb.c:964-965 | once me_pghead, the loose pages and mt_free_pgs are in records, each page is used by a tree or listed in exactly one record |
| IdList.Search | external/liblmdb/midl.c:34-67 | the position of the id, or else the boundary between larger and smaller ids in a descending list |
| IdList.Resize | external/liblmdb/midl.c:131-141 | growing a list keeps its ids |
| IdList.Need | external/liblmdb/midl.c:143-155 | room for num more ids, the ids unchanged, also when the array moves |
| IdList.Append | external/liblmdb/midl.c:157-169 | the id at the end, growing the list if it is full |
| IdList.AppendRange | external/liblmdb/midl.c:185-199 | a run of page numbers appended highest first, with room for all of them |
| IdList.AppendList | external/liblmdb/midl.c:171-183 | the ids of one list behind those of another, growing it if need be |
| IdList.XMerge | external/liblmdb/midl.c:201-213 | the in-place backward merge yields the merge of both lists; nothing beyond it changes, slot 0 stops every scan, and the second list may lie in the unused end of the first |
| IdList.PlaceId | external/liblmdb/midl.c:206-211 | one round of the merge: smaller ids move up, the new id goes in front of them, no unread entry is overwritten |
| IdList.MergedMultiset | external/liblmdb/midl.c:201-213 | the merge has exactly the ids of both lists |
| IdList.MergedDescending | external/liblmdb/midl.c:201-213 | the merge of descending lists is descending |
| IdList.MergedStrict | external/liblmdb/midl.c:201-213 | without common ids the merge is strictly descending |
| IdSort.Insert | external/liblmdb/midl.c:234-239 | insertion of one id: a rearrangement that leaves the segment descending, although the scan is only bounded by slot 1 |
| IdSort.SortSmall | external/liblmdb/midl.c:232-240 | insertion sort of a short segment |
| IdSort.ScanUp | external/liblmdb/midl.c:260-260 | the upward scan stays inside the segment |
| IdSort.ScanDown | external/liblmdb/midl.c:261-261 | the downward scan stays inside the segment |
| IdSort.Median | external/liblmdb/midl.c:245-255 | median of three: the pivot ends up in l+1 with sentinels on both sides |
| IdSort.Partition | external/liblmdb/midl.c:256-264 | everything left of the cut is not below the pivot, everything right of it not above |
| IdSort.PlacePivot | external/liblmdb/midl.c:265-266 | the pivot goes between the two parts |
| IdSort.StackFits | external/liblmdb/midl.c:224-276 | because the larger half is pushed, no more than 28 segments are ever pending for any int-sized length, so the 64 slots suffice |
| IdSort.Push | external/liblmdb/midl.c:267-276 | the larger part goes onto the stack, within its slots |
| IdSort.Pop | external/liblmdb/midl.c:242-243 | the last segment pushed comes back |
| IdSort.Sort | external/liblmdb/midl.c:220-279 | for every list: a permutation of the input, descending as far as its length counts as an int, nothing beyond the list changes; the loop ends; the length and every int sum l+ir stay within int for all lists of up to 0x40000003 ids, and for no longer length for all lists |
| IdSort.SortFirst | external/liblmdb/midl.c:220-279 | the loop on n ids: the same for each n up to INT_MAX, with the lists that overflow for larger n named |
| IdSort.UnluckyExists | external/liblmdb/midl.c:244-244 | for every length above 19 there is a list whose first partition leaves nine ids on the right, which makes l+ir overflow above 0x40000003 ids |
| IdSort.UnluckyCut | external/liblmdb/midl.c:256-264 | such a list is cut exactly there, whatever swaps the partition makes |
| DirtyList.Search2 | external/liblmdb/midl.c:281-314 | position of the page, or the first larger one, in an ascending dirty list |
| DirtyList.Insert2 | external/liblmdb/midl.c:316-345 | -1 exactly for a page already listed, -2 exactly for a full list without it, else the entry inserted in order; errors change nothing |
| DirtyList.InsertedAscending | external/liblmdb/midl.c:336-342 | inserting at the position found keeps the list ascending |
| NestedCommit.MarkDeleted | external/liblmdb/mdb.c:3867-3879 | exactly the live entries of the parent's spill list that are child dirty pages are overwritten, all behind the position the squash starts from, whatever deleted entries the list has |
| NestedCommit.Squash | external/liblmdb/mdb.c:3880-3884 | the remaining entries close up, in order |
| NestedCommit.DropFromSpill | external/liblmdb/mdb.c:3866-3885 | the live entries of the parent's spill list lose exactly the child's dirty pages; nothing is added, the list stays descending with one live entry per page |
| SpillList.Purge | external/liblmdb/mdb.c:2297-2305 | the in-place loop leaves exactly the live entries, in order |
| SpillList.LiveOrder | external/liblmdb/mdb.c:2297-2305 | without its deleted entries the list is in order still |
| SpillList.InParent | external/liblmdb/mdb.c:2332-2345 | the search of the ancestors' lists finds a page exactly when one of them has a live entry for it |
| SpillList.SpillPages | external/liblmdb/mdb.c:2297-2350 | from the end of the dirty list, exactly the pages that are neither held back nor spilled by an ancestor get an entry, until enough have one; the list is descending again with one live entry per page |
| SpillList.DropEntry | external/liblmdb/mdb.c:2653-2684 | a page taken back or freed: its live entry, if there is one, is cut off or marked, no other page is affected and the list stays in order |
| SpillList.JoinSpill | external/liblmdb/mdb.c:3937-3944 | appending and sorting: the live pages of both lists, one live entry each, descending again although deleted entries may repeat |
| DirtyMerge.RemoveAt | external/liblmdb/mdb.c:3897-3901 | closing the gap of one entry |
| DirtyMerge.RemoveSpilled | external/liblmdb/mdb.c:3887-3904 | the parent's dirty list loses exactly the pages the child spilled |
| DirtyMerge.CountUnion | external/liblmdb/mdb.c:3909-3920 | with a grandparent, the counting loop yields the length of the merge |
| DirtyMerge.UnionLenIs | external/liblmdb/mdb.c:3906-3923 | the length of the merge is the number of pages in either list |
| DirtyMerge.FindLen | external/liblmdb/mdb.c:3906-3923 | both branches yield that length, the short one from mt_dirty_room |
| DirtyMerge.PlaceEntry | external/liblmdb/mdb.c:3926-3932 | one round of the backward merge; the child's entry replaces the parent's for the same page |
| DirtyMerge.MergeDirty | external/liblmdb/mdb.c:3924-3934 | the in-place merge yields the merged list; the equality of i and x asserted by the code is proved on the way |
| DirtyMerge.JoinedIs | external/liblmdb/mdb.c:3924-3934 | the merged list is strictly ascending and holds the child's entries and the parent's for other pages |
| DirtyMerge.CommitDirty | external/liblmdb/mdb.c:3887-3934 | the parent's dirty list after the commit: ascending, as long as the union, the child's page winning |
| DirtyMerge.CommitLists | external/liblmdb/mdb.c:3864-3948 | the dirty and the spill list of the parent after a nested commit: the dirty list holds the child's entries and the parent's for pages the child neither has nor spilled; the spill list stands for the parent's pages without the child's dirty ones, and the child's; both are in the order the next commit needs |
| DirtyMerge.DropSpilled | external/liblmdb/mdb.c:3866-3885 | the same for a parent without a spill list |
| DirtyMerge.CommitSpill | external/liblmdb/mdb.c:3937-3948 | the child's spill list joins the parent's or becomes it |
| DirtyMerge.SpilledAfter | external/liblmdb/mdb.c:3866-3885 | the spill list stands for its old pages without the child's dirty ones |
| DirtyRoom.StepInv | external/liblmdb/mdb.c:1348-1353 | every operation on a chain of nested transactions keeps mt_dirty_room equal to the capacity minus the dirty pages visible, and no page dirty and spilled at once or spilled twice in the chain; once mdb_freelist_save has dropped loose pages the room is only not too large |
| DirtyRoom.CommitSees | external/liblmdb/mdb.c:3864-3948 | committing a child leaves the parent seeing exactly the dirty pages the child saw |
| DirtyRoom.VisibleStep | external/liblmdb/mdb.c:1348-1353 | what each operation does to the dirty pages a transaction sees, and which pages it leaves spilled |
| DirtyRoom.PageSteps | external/liblmdb/mdb.c:1348-1353 | exactly when a page can be entered, taken back or taken off the lists |
| DirtyRoom.RunInv | external/liblmdb/mdb.c:1348-1353 | so it holds in every reachable state |
| DirtyRoom.RoomAtCommit | external/liblmdb/mdb.c:3921-3923 | at a nested commit the merged list has exactly capacity minus room pages with a single ancestor, and never more with several; the child's dirty and spilled pages are apart, and so are the two spill lists |
| RunList.EndPoints | external/liblmdb/mdb.c:2470-2479 | when the first and last of num entries of a strictly descending list differ by num-1, the entries between are consecutive too |
| RunList.RunPasses | external/liblmdb/mdb.c:2470-2479 | conversely every free run passes the test at its lowest page |
| RunList.FindEnd | external/liblmdb/mdb.c:2470-2479 | the loop finds the last position that passes the test |
| RunList.FindRun | external/liblmdb/mdb.c:2470-2479 | 0 exactly when no num consecutive pages are free, else the end of the lowest such run |
| RunList.RemoveRun | external/liblmdb/mdb.c:2593-2597 | moving the stragglers down deletes exactly the run, in place |
| RunList.WithoutIs | external/liblmdb/mdb.c:2593-2597 | the list stays strictly descending and loses exactly the run's pages |
| RunList.InsertRun | external/liblmdb/mdb.c:6582-6589 | the in-place insertion from the end yields the list with the run at its place |
| RunList.RunInsertedIs | external/liblmdb/mdb.c:6582-6589 | the list stays strictly descending and gains exactly the run's pages |
| RunList.InsertedBack | external/liblmdb/mdb.c:2593-2597 | taking a run and giving it back restores the list |
| RunList.RemovedAgain | external/liblmdb/mdb.c:6582-6589 | giving a run back and taking it again restores the list |
| TxnState.ReusedLooseIs | external/liblmdb/mdb.c:2445-2452 | taking a loose page is the ledger's move of that page into the trees |
| TxnState.ConsumedIs | external/liblmdb/mdb.c:2537-2558 | merging the next record moves exactly its pages to me_pghead, which stays strictly descending and within bounds |
| TxnState.TookRunIs | external/liblmdb/mdb.c:2593-2597 | taking a run moves exactly its pages from me_pghead to the trees |
| TxnState.TookNewIs | external/liblmdb/mdb.c:2598-2600 | extending the map adds exactly the new pages |
| TxnState.FreedIs | external/liblmdb/mdb.c:2728-2728 | freed pages move from the trees to mt_free_pgs, once each |
| TxnState.LoosenedIs | external/liblmdb/mdb.c:2152-2157 | a loosened page moves from the trees to the loose list |
| TxnState.GivenIs | external/liblmdb/mdb.c:6582-6589 | released pages move from the trees to me_pghead |
| TxnState.LooseFreedIs | external/liblmdb/mdb.c:3442-3484 | without me_pghead the loose pages become freed pages |
| WriteTxn.Txn.FindOldest | external/liblmdb/mdb.c:2366-2381 | the smallest of the published txnids and the last committed one |
| WriteTxn.Txn.HeadRoom | external/liblmdb/mdb.c:2537-2545 | me_pghead exists afterwards, with its ids and the room asked for |
| WriteTxn.Txn.HeadMerge | external/liblmdb/mdb.c:2537-2558 | me_pghead, created or grown as needed, becomes its merge with the record |
| WriteTxn.Txn.NextRecord | external/liblmdb/mdb.c:2516-2522 | the record read is the first one after me_pglast |
| WriteTxn.Txn.TooRecent | external/liblmdb/mdb.c:2506-2515 | a record is refused exactly when its key is not below the oldest id, which is looked up again at most once, and always before refusing |
| WriteTxn.Txn.FetchNext | external/liblmdb/mdb.c:2516-2558 | one record merged, or a stop because there is none or it is too recent |
| WriteTxn.Txn.SeekRun | external/liblmdb/mdb.c:2462-2559 | each record consumed has a key below the oldest id that was cached, or below the one looked up since, as the protocol of SnapshotProtocol asks, and is fetched only while there is no run of num pages; the outcome is a run, or me_pghead has none and either no record is left that the oldest reader, just looked up, does not need, or num is above 1 and the search has failed with enough pages exactly 60 * num times before |
| WriteTxn.Txn.TakeRun | external/liblmdb/mdb.c:2593-2597 | the run found leaves me_pghead for the trees |
| WriteTxn.Txn.ExtendMap | external/liblmdb/mdb.c:2561-2600 | MDB_MAP_FULL exactly when mt_next_pgno + num reaches me_maxpg, and then nothing changes; else that many new pages from the map |
| WriteTxn.Txn.TakePages | external/liblmdb/mdb.c:2561-2601 | the run found, or new pages from the map, or MDB_MAP_FULL with nothing changed |
| WriteTxn.Txn.PageAlloc | external/liblmdb/mdb.c:2420-2605 | the pages handed out were in no tree and now are, by moves of the ledger, each record consumed being below the oldest id in force; a loose page is used first; pages beyond the last one used are taken, within the map, or MDB_MAP_FULL reported, only when no run is free and the search was exhausted; MDB_TXN_FULL exactly when the dirty list is full and no loose page serves; every page handed out is in the dirty list, fresh ones were not before |
| WriteTxn.Txn.PageLoose | external/liblmdb/mdb.c:2123-2165 | a dirty page outside the freeDB becomes loose, any other page is freed |
| WriteTxn.Txn.PageTouch | external/liblmdb/mdb.c:2704-2800 | a dirty page stays; a spilled one is taken back exactly when the dirty list has room; any other is replaced in the trees by a dirty page of another number and goes onto mt_free_pgs; on failure trees and lists are as before |
| WriteTxn.Txn.OvpageFree | external/liblmdb/mdb.c:6524-6601 | a run acquired in this transaction goes back to me_pghead and its first page leaves the dirty or the spill list, which gains room; any other run goes onto mt_free_pgs; that no other page of the run is listed is part of the state kept |
| WriteTxn.Txn.PageDirty | external/liblmdb/mdb.c:2385-2400 | the page is entered with its number of pages, and the bookkeeping of both lists holds afterwards |
| WriteTxn.Txn.Unspill | external/liblmdb/mdb.c:2652-2695 | succeeds exactly when the dirty list has room; the page moves from the spill list to the dirty list |
| WriteTxn.Txn.PageSpill | external/liblmdb/mdb.c:2322-2354 | whichever dirty pages are chosen, those that are not loose move to the spill list and make room; the trees and free lists do not change |
| PageLists.Untracked | external/liblmdb/mdb.c:2397-2398 | pages just taken from me_pghead or from the map are in neither list, so that entering them cannot fail, and no listed run overlaps them |
| PageLists.TrackedSpilled | external/liblmdb/mdb.c:2322-2354 | spilling keeps the bookkeeping: loose pages stay dirty, no page is in both lists, mt_dirty_room counts what is free |
| PageLists.TrackedUnspilled | external/liblmdb/mdb.c:2652-2695 | a spilled page is not dirty, and taking it back keeps the bookkeeping |
| PageLists.TrackedGiven | external/liblmdb/mdb.c:6548-6589 | no other listed page lies in an overflow run that is given back |
| PageLists.TrackedLooseFreed | external/liblmdb/mdb.c:3451-3484 | each loose page is in the dirty list and leaves it when it becomes a freed page |
| FreelistSave.Perform | external/liblmdb/mdb.c:3420-3637 | any work the cursor operations do on the freeDB's own pages, spilling included, keeps the transaction sound, only appends to mt_free_pgs and leaves the records alone |
| FreelistSave.RecordsHidden | external/liblmdb/mdb.c:3549-3552 | records up to me_pglast and the transaction's own can be rewritten without touching what mdb_page_alloc may still consume |
| FreelistSave.DropConsumed | external/liblmdb/mdb.c:3499-3509 | afterwards no record up to me_pglast holds ids, the counters describe exactly the reserved ones, and deleting more does not lose one mdb_page_alloc may still consume; failure is recorded in the transaction |
| FreelistSave.SaveOwn | external/liblmdb/mdb.c:3512-3544 | the record under the transaction's id lists all of mt_free_pgs, also when writing it freed more, descending if the sort stayed within int |
| FreelistSave.ReserveHead | external/liblmdb/mdb.c:3556-3584 | head_room and total_room keep describing exactly the reserved records; a new key is taken once the last record has a page's worth, and the record gets the room of HeadRoomIs for what the others leave open |
| FreelistSave.HeadRoomIs | external/liblmdb/mdb.c:3563-3571 | the room reserved is all that is wanted, if that fits on a page or no key is left, and otherwise the smallest number of whole pages that holds an equal share for each key left |
| FreelistSave.DropFirst | external/liblmdb/mdb.c:3500-3508 | the first record is deleted; without page work in the B-tree there is one fewer left |
| FreelistSave.SortedList | external/liblmdb/mdb.c:3532-3532 | the same pages, strictly descending if the sort stayed within int, which it does up to 0x40000003 pages |
| FreelistSave.SortedStrict | external/liblmdb/mdb.c:3532-3532 | sorting a list of distinct pages gives a strictly descending one |
| FreelistFill.Fill | external/liblmdb/mdb.c:3611-3635 | each id of me_pghead goes into exactly one reserved record, no record beyond me_pglast is reached, and all ids find room |
| FreelistFill.JoinOnce | external/liblmdb/mdb.c:3614-3634 | no id is written into two records |
| FreelistFill.JoinHas | external/liblmdb/mdb.c:3614-3634 | an id is in the list exactly when it is in one of the records |
| FreelistFill.MergeLoose | external/liblmdb/mdb.c:3590-3607 | what is left of the loose list joins me_pghead |
| FreelistFill.FreeLoosePages | external/liblmdb/mdb.c:3442-3484 | without me_pghead the loose pages become freed pages and leave the dirty list; otherwise nothing changes |
| FreelistFill.Turn | external/liblmdb/mdb.c:3490-3585 | one turn keeps what is reserved and written consistent, whatever the B-tree code does, and is the last one only when all is settled |
| FreelistFill.Settle | external/liblmdb/mdb.c:3490-3585 | the loop ends with success only when nothing is left to consume or write and the reserved room suffices, and otherwise the transaction is marked as failed; when the B-tree code needs no pages it ends with success within a bound in me_pglast |
| FreelistFill.HeadCostDown | external/liblmdb/mdb.c:3553-3584 | each record reserved brings the loop nearer to its end, whatever sizes and rounding are chosen |
| FreelistFill.SavedAll | external/liblmdb/mdb.c:964-965 | the saved records and the trees account for every page exactly once, and the next write transaction starts from a sound state |
| FreelistFill.Save | external/liblmdb/mdb.c:3420-3637 | for every script of page allocations, touches, frees and spills by the B-tree code below it: on success each page below mt_next_pgno is used by a tree or listed in exactly one record, and the next transaction starts sound, if sorting mt_free_pgs stayed within int, as it does up to 0x40000003 pages; and it does succeed when the B-tree code needs no pages and 4 * me_pglast + 5 operations are allowed |
| Tiling.TiledAdd | external/liblmdb/mdb.c:8224-8229 | a node below mp_upper keeps the nodes covering [mp_upper, end) exactly, without overlap, at even offsets |
| Tiling.TiledDel | external/liblmdb/mdb.c:8313-8327 | closing the gap of a deleted node keeps the cover exact |
| SlottedPage.HeaderReads | external/liblmdb/mdb.c:1060-1086 | the sizes and flags read from a node header are those written |
| SlottedPage.ImageDetermines | external/liblmdb/mdb.c:1060-1110 | the bytes at an offset determine the node there |
| SlottedPage.StoredParts | external/liblmdb/mdb.c:1060-1110 | header, key and data lie one behind the other from the node's offset on |
| SlottedPage.StoredReads | external/liblmdb/mdb.c:8192-8259 | of a stored node the reader finds key size and data size, and the data itself or, exactly when the node would exceed me_nodemax, the flag and the number of the overflow page |
| SlottedPage.PageAdd | external/liblmdb/mdb.c:8220-8262 | a node written below mp_upper leaves the key and data bytes of every other node in place |
| SlottedPage.PageDel | external/liblmdb/mdb.c:8313-8327 | the move and the shifted offsets leave every other node's bytes intact |
| SlottedPage.Page.constructor | external/liblmdb/mdb.c:8068-8070 | a new page has no nodes |
| SlottedPage.Page.SizeLeft | external/liblmdb/mdb.c:1014-1017 | SIZELEFT is exactly what the nodes and their slots leave of the page |
| SlottedPage.Page.NodeAdd | external/liblmdb/mdb.c:8189-8270 | a sequence insert of the stored node at indx; MDB_PAGE_FULL exactly when node and slot exceed SIZELEFT, and then nothing changes |
| SlottedPage.Page.ExtentAt | external/liblmdb/mdb.c:8303-8311 | the size computed from the header is what the node takes up |
| SlottedPage.Page.ClosePtrs | external/liblmdb/mdb.c:8313-8321 | the slots close up and offsets below the deleted node grow by its size |
| SlottedPage.Page.NodeDel | external/liblmdb/mdb.c:8303-8328 | a sequence removal; everything else on the page keeps its value |
| Memory.Copy | external/liblmdb/mdb.c:8240-8251 | memcpy: the target range holds the bytes, nothing else changes |
| Memory.Move | external/liblmdb/mdb.c:8323-8324 | memmove: the target range holds the old source range even when they overlap, nothing else changes |
| PageSplit.Stage | external/liblmdb/mdb.c:9621-9627 | the copied slots find every old node at its index in the enlarged sequence |
| PageSplit.SplitPoint | external/liblmdb/mdb.c:9644-9674 | by count the middle; by size the point up to which the side searched from fills a page, but not beyond the middle, or for an append the last old node |
| PageSplit.Separator | external/liblmdb/mdb.c:9675-9682 | the separator is the key of the first node to go right |
| PageSplit.Distribute | external/liblmdb/mdb.c:9741-9786 | the right page gets the nodes from the split point on, the copy those before it, each read before its slot is overwritten; it fails exactly when one of the two needs more than a page |
| PageSplit.Adopt | external/liblmdb/mdb.c:9788-9794 | the old page becomes the left half |
| PageSplit.SplitAppend | external/liblmdb/mdb.c:9733-9740 | appending: the right page gets the new node alone, exactly when it fits on an empty page |
| PageSplit.Split | external/liblmdb/mdb.c:9553-9801 | on success left nodes followed by right nodes are the old ones with the new one at newindx (first branch keys dropped), cut at the chosen point, the separator is the first right key and the cursor is on the new node; on failure the old page is unchanged; where two nodes fit on a page it succeeds exactly when the point is looked for by size or the half that gets the new node has room for it |
| SplitFit.LeafParts | external/liblmdb/mdb.c:9741-9786 | on leaf pages the two halves concatenate to exactly the enlarged sequence |
| SplitFit.NeedIs | external/liblmdb/mdb.c:1014-1017 | the space nodes need is what mp_lower and mp_upper have moved by |
| SplitFit.ChosenOnce | external/liblmdb/mdb.c:9644-9674 | there is only one such split point |
| SplitFit.AroundMiddle | external/liblmdb/mdb.c:9560-9674 | where that point is: by size up to 31 old nodes or for a new one above a sixteenth of a page; by count in the middle; by size at most one node beyond it, and for an append never behind the last old node |
| SplitFit.BySizeFits | external/liblmdb/mdb.c:9629-9674 | a point found by size never makes mdb_node_add fail: for all pages, positions and new nodes, leaf or branch, both halves fit |
| SplitFit.FitsExactly | external/liblmdb/mdb.c:9629-9674 | both halves fit if and only if the point is looked for by size, or else the half that gets the new node has room for it |
| SplitFit.SplitCanFail | external/liblmdb/mdb.c:9644-9644 | 32 nodes, small ones before large ones, and one more large one: the split is by count and the large half does not fit, although the comment above the test names such pages |
| PageSplit.CursorOnNew | external/liblmdb/mdb.c:9755-9756 | the cursor denotes the inserted node |
| PageSplit.BranchSplit | external/liblmdb/mdb.c:9746-9776 | on branch pages no child is lost: those of the left and then of the right page are those of all nodes in order, every key but the first of each page is in its place, and the cursor is on the new child |
| Leaf2Page.FlatInserted | external/liblmdb/mdb.c:8176-8181 | inserting a key is inserting its bytes |
| Leaf2Page.FlatRemoved | external/liblmdb/mdb.c:8294-8297 | removing a key is removing its bytes |
| Leaf2Page.Leaf2.NodeAdd | external/liblmdb/mdb.c:8173-8187 | a sequence insert by moving the higher keys up |
| Leaf2Page.Leaf2.NodeDel | external/liblmdb/mdb.c:8293-8301 | a sequence removal by moving the higher keys down |
| Leaf2Page.Leaf2.SizeLeft | external/liblmdb/mdb.c:8183-8185 | the counters give exactly the space left |
| Leaf2Page.SplitLeft | external/liblmdb/mdb.c:9582-9589 | the new key on the left: the old page keeps and shifts its half, the right page gets the rest |
| Leaf2Page.SplitRight | external/liblmdb/mdb.c:9590-9599 | the new key on the right, x keys into the new page |
| Leaf2Page.Split | external/liblmdb/mdb.c:9560-9599 | left keys followed by right keys are the old ones with the new one at newindx, the separator is the first right key, the cursor is on the new key |
| BtreeSearch.NodeSearch | external/liblmdb/mdb.c:5816-5904 | for any total order: the smallest entry not below the key, exact when an entry compares equal; slot 0 of a branch is not compared |
| BtreeSearch.ChildIndex | external/liblmdb/mdb.c:6354-6367 | the child followed is the only one whose range contains the key |
| BtreeSearch.DescendStep | external/liblmdb/mdb.c:6354-6376 | keys left of the child followed are smaller than the key, keys right of it larger |
| BtreeSearch.SearchRoot | external/liblmdb/mdb.c:6329-6385 | the descent ends in a leaf that splits all keys of the tree around the searched key |
| BtreeSearch.Lookup | external/liblmdb/mdb.c:7021-7029 | over the whole tree the entry found is the smallest one not below the key, and exact says whether the key is in the tree at all |
| BtreeSearch.AllInside | external/liblmdb/mdb.c:6329-6385 | every key of a well-formed tree lies within its bounds |
| CopyHandoff.StepInv | external/liblmdb/mdb.c:9947-10042 | every step of either thread keeps mutex, counters, buffer numbers and pending bytes consistent |
| CopyHandoff.BuffersApart | external/liblmdb/mdb.c:9947-10042 | in every interleaving the provider works on a buffer the writer does not have, and the low part of mc_new stays in 0..2 |
| CopyHandoff.NoDeadlock | external/liblmdb/mdb.c:9970-10036 | the threads never wait on each other at once, and until both are done one of them can go on |
| CopyHandoff.AllWritten | external/liblmdb/mdb.c:9978-10016 | without errors the file holds a prefix of the buffers and tails handed over, and all of them when the writer thread ends |
| CopyHandoff.CopyIsFaithful | external/liblmdb/mdb.c:9947-10042 | without errors the file finally holds exactly what the provider put into the buffers, in order, for every interleaving |
| CopyCompletes.WorkLowers | external/liblmdb/mdb.c:9947-10042 | however the threads take turns, each step of work lowers a measure: neither goes round in circles |
| CopyCompletes.Completes | external/liblmdb/mdb.c:9947-10042 | from every state of every run both threads can be brought to their end |
| CopyCompletes.ErrorsKept | external/liblmdb/mdb.c:9955-10041 | mc_error is set exactly when one of the threads has met an error |
| PolyLimbs.BlockVal | external/chacha20poly1305/chacha20poly1305.c:179-183 | the five limbs cut from 16 bytes stand for the block with its high bit, each below 2^26 |
| PolyLimbs.ColumnsVal | external/chacha20poly1305/chacha20poly1305.c:186-200 | the five columns stand for h * r modulo 2^130-5 |
| PolyLimbs.MultipliedExact | external/chacha20poly1305/chacha20poly1305.c:173-200 | for accumulator limbs as they occur and a clamped key no 32-bit or 64-bit intermediate wraps around |
| PolyLimbs.CarriedExact | external/chacha20poly1305/chacha20poly1305.c:202-214 | the 32-bit and 64-bit carries are those on unbounded numbers |
| PolyLimbs.CarriedVal | external/chacha20poly1305/chacha20poly1305.c:202-214 | the carries keep the value modulo 2^130-5; afterwards four limbs are below 2^26 and the second below 2^26+64 |
| PolyLimbs.RoundVal | external/chacha20poly1305/chacha20poly1305.c:177-218 | one block: the limbs stand for (h + block + hibit) * r modulo 2^130-5, within the same bounds |
| PolyFinish.CarryPassReduces | external/chacha20poly1305/chacha20poly1305.c:267-272 | one carry pass puts all five limbs below 2^26 and keeps the value modulo 2^130-5 |
| PolyFinish.MinusPIs | external/chacha20poly1305/chacha20poly1305.c:274-279 | h minus p with wrap-around: the top limb has its high bit set exactly when h < p |
| PolyFinish.FullReduceIs | external/chacha20poly1305/chacha20poly1305.c:281-289 | the masked select yields the representative in [0, 2^130-5) |
| PolyFinish.PackVal | external/chacha20poly1305/chacha20poly1305.c:291-295 | the shifts and ors pack the low 128 bits |
| PolyFinish.AddPadVal | external/chacha20poly1305/chacha20poly1305.c:297-301 | the word-by-word addition is addition modulo 2^128 |
| PolyFinish.TagOf | external/chacha20poly1305/chacha20poly1305.c:263-306 | the tag is (h mod 2^130-5 + s) mod 2^128, little-endian |
| PolyKey.KeyLimbsClamp | external/chacha20poly1305/chacha20poly1305.c:143-149 | the five masks load the clamped key of section 2.5.1 of RFC 8439 |
| PolyStream.RoundsAbsorb | external/chacha20poly1305/chacha20poly1305.c:167-225 | for any number of blocks the limbs stand for the accumulator of section 2.5 of RFC 8439 |
| PolyStream.Context.constructor | external/chacha20poly1305/chacha20poly1305.c:143-162 | a new context stands for the key and the empty message |
| PolyStream.Context.Blocks | external/chacha20poly1305/chacha20poly1305.c:167-225 | the loop absorbs every full block |
| PolyStream.Context.Drain | external/chacha20poly1305/chacha20poly1305.c:229-239 | topping up a partly filled buffer |
| PolyStream.Context.Update | external/chacha20poly1305/chacha20poly1305.c:227-252 | the context becomes that of one-shot absorption of the longer message, with fewer than 16 bytes buffered |
| PolyStream.Context.Finish | external/chacha20poly1305/chacha20poly1305.c:254-306 | the tag of section 2.5 of RFC 8439 over everything absorbed |
| PolyStream.Context.Pad16 | external/chacha20poly1305/chacha20poly1305.c:317-321 | zeros up to the next multiple of 16 |
| PolyStream.SameContext | external/chacha20poly1305/chacha20poly1305.c:227-252 | contexts with the same key whose updates add up to the same bytes agree on everything later calls read: chunking does not matter |
| PolyStream.Finishing | external/chacha20poly1305/chacha20poly1305.c:255-261 | the last short block, closed by a byte 1 and zeros, completes the message |
| ChaCha20.RotlParts | external/chacha20poly1305/chacha20poly1305.c:40-42 | the two shifts and the or are the rotations by 16, 12, 8 and 7 |
| ChaCha20.QuarterBack | external/chacha20poly1305/chacha20poly1305.c:48-53 | the quarter round is undone by subtractions and the rotations by 25, 24, 20 and 16, in the opposite order |
| ChaCha20.BackQuarter | external/chacha20poly1305/chacha20poly1305.c:48-53 | and the other way round, so it is a bijection |
| ChaCha20.QuarterAt | external/chacha20poly1305/chacha20poly1305.c:48-53 | in place on four entries, the others stay |
| CipherVectors.QuarterVector | external/chacha20poly1305/chacha20poly1305.c:48-53 | the example of section 2.1.1 of RFC 8439 |
| CipherVectors.StateVector | external/chacha20poly1305/chacha20poly1305.c:48-53 | the example of section 2.2.1 of RFC 8439 |
| ChaCha20.ColumnsInPlace | external/chacha20poly1305/chacha20poly1305.c:84-88 | four quarter rounds on the columns of the matrix |
| ChaCha20.DiagonalsInPlace | external/chacha20poly1305/chacha20poly1305.c:89-93 | four quarter rounds on the diagonals: a column round on the matrix with its rows turned |
| ChaCha20.BlockInto | external/chacha20poly1305/chacha20poly1305.c:56-100 | the block function of section 2.3 of RFC 8439 |
| CipherVectors.BlockVector | external/chacha20poly1305/chacha20poly1305.c:56-100 | its example in section 2.3.2: all 64 bytes |
| ChaCha20.XorInto | external/chacha20poly1305/chacha20poly1305.c:105-125 | every byte of dst is src, or zero for a null src, xored with the key stream from the given counter, which wraps at 32 bits; dst may be src; nothing else changes |
| ChaCha20.CryptTwice | external/chacha20poly1305/chacha20poly1305.c:105-125 | applying the stream twice gives the input back, also past a wrap of the counter |
| Aead.Equal16 | external/chacha20poly1305/chacha20poly1305.c:323-327 | true exactly for equal tags |
| Aead.Store64Is | external/chacha20poly1305/chacha20poly1305.c:35-38 | eight bytes, least significant first |
| Aead.MacOf | external/chacha20poly1305/chacha20poly1305.c:343-356 | the MAC over aad, padding, ciphertext, padding and both lengths |
| Aead.Encrypt | external/chacha20poly1305/chacha20poly1305.c:329-362 | out receives ciphertext and tag of section 2.8 of RFC 8439, nothing behind them changes, also in place |
| Aead.Decrypt | external/chacha20poly1305/chacha20poly1305.c:364-406 | 0 exactly when the tag fits, then the plaintext; otherwise -1 and the output buffer is unwritten |
| Aead.OpenSealed | external/chacha20poly1305/chacha20poly1305.c:329-406 | for all keys, nonces, aad and messages decrypting what was encrypted returns the message |
| Aead.AcceptedIsSealed | external/chacha20poly1305/chacha20poly1305.c:364-406 | any ciphertext that is accepted re-encrypts to itself |
| Aead.MacDataInjective | external/chacha20poly1305/chacha20poly1305.c:343-354 | the padded MAC input determines aad and ciphertext |
| Aead.MacInputInjective | external/chacha20poly1305/chacha20poly1305.c:343-354 | so do the bytes that the MAC is taken over |
| AeadVector.KeyVector | external/chacha20poly1305/chacha20poly1305.c:336-338 | the one-time key of the example in section 2.8.2 of RFC 8439: the first half of the block with counter 0 |
| AeadVector.CryptVector | external/chacha20poly1305/chacha20poly1305.c:340-341 | the 114 bytes of ciphertext of that example, from the blocks with counters 1 and 2 |
| AeadVector.MacVector | external/chacha20poly1305/chacha20poly1305.c:343-356 | its tag |
| AeadVector.SealVector | tests/test_pq_primitives.cpp:181-228 | the known-answer test of the repository: sealing the example gives the ciphertext and tag of the standard, and opening them the message |
| Decimal.PrintReads | include/AccountNumber.h:75-76 | printed numbers read back, without leading zeros |
| Decimal.ReadPrints | include/AccountNumber.h:213-225 | a digit string reprints to itself exactly when it has no leading zero |
| Decimal.Stoull | include/AccountNumber.h:216-221 | the value, or failure when it does not fit into 64 bits |
| Decimal.ParseU32 | include/AccountNumber.h:213-225 | accepts exactly non-empty digit strings of value up to UINT32_MAX |
| Luhn.SymbolsCanonical | include/AccountNumber.h:145-157 | every symbol of the alphabet reads as its own value |
| Luhn.SymbolsExactly | include/AccountNumber.h:149-157 | the characters of each value, exactly: the symbol, its lower-case letter, O and o for 0, I, i, L and l for 1 |
| Luhn.Generate | include/AccountNumber.h:161-178 | the loop yields the check character of the weighted sum, or '?' when something is no symbol |
| Luhn.CheckCompletes | include/AccountNumber.h:175-177 | with the check value appended the weighted sum is a multiple of 32 |
| Luhn.DetectsSubstitution | include/AccountNumber.h:161-178 | on payloads of any length, replacing one value always changes the check value |
| Luhn.DetectsSwap | include/AccountNumber.h:161-178 | swapping two neighbours of different value leaves the check value the same exactly for the values 0 and 31 |
| Luhn.CharDetectsSubstitution | include/AccountNumber.h:149-178 | the same for characters: a symbol of another value changes the check character |
| Luhn.CharDetectsSwap | include/AccountNumber.h:149-178 | the same for characters that are swapped, with the exact exception |
| AccountNumber.EncodeFingerprint | include/AccountNumber.h:121-129 | four symbols of the low 20 bits |
| AccountNumber.DecodeFingerprint | include/AccountNumber.h:131-141 | the 20-bit value, or failure unless there are four symbols |
| AccountNumber.DecodeEncoded | include/AccountNumber.h:121-141 | decoding an encoded fingerprint returns its low 20 bits |
| AccountNumber.EncodeShift | include/AccountNumber.h:121-129 | the most significant symbol comes first |
| AccountNumber.EncodeDecoded | include/AccountNumber.h:131-141 | re-encoding replaces each symbol by its canonical one, so gives the text back exactly when all four are canonical |
| AccountNumber.SplitFields | include/AccountNumber.h:182-211 | the fields between dashes, exactly when there are as many as asked for |
| AccountNumber.JoinFields | include/AccountNumber.h:182-211 | the fields put back together are the text, and none contains a dash |
| AccountNumber.Finalize | include/AccountNumber.h:227-251 | accepts exactly well-formed fields whose check character has the right value |
| AccountNumber.ToString | include/AccountNumber.h:74-104 | both printed forms: the fields in order, joined by dashes, with the check character of the payload |
| AccountNumber.FromString | include/AccountNumber.h:84-112 | both parsers: exactly the texts with the right number of fields that the final step accepts |
| AccountNumber.ParsePrinted | include/AccountNumber.h:74-112 | parsing a printed number returns the same height, index, 20-bit fingerprint and subaddress index |
| AccountNumber.Reprint | include/AccountNumber.h:84-112 | an accepted text reprints to one with the same value, equal to the input exactly when it has no leading zeros and canonical A and C |
| AccountNumber.FormsApart | include/AccountNumber.h:199-199 | no text is accepted in both forms |
| TypoDetection.AcceptedText | include/AccountNumber.h:227-251 | exactly which texts are accepted: the right number of fields, numbers within 32 bits, four symbols, and a last symbol that is the check symbol of all the others, T included |
| TypoDetection.RejectsSubstitution | include/AccountNumber.h:30-37 | any one character of an accepted text, in any field, replaced by one of a different value: the text is rejected |
| TypoDetection.SwapExactly | include/AccountNumber.h:30-37 | two neighbouring symbols of different value swapped, also across a dash: the text is rejected, except exactly when they have the values 0 and 31 and both are in A |
| TypoDetection.SwapMeaning | include/AccountNumber.h:131-141 | in that case it is another account |
| TypoDetection.FieldsMean | include/AccountNumber.h:30-36 | the first field is the height, the second the index, the third the fingerprint, the fourth of five the subaddress index |

## Left out

- PageSplit.Split: requires two nodes on the page, which MDB_MINKEYS gives a full page, states when it succeeds for nodes of up to half a page, as me_nodemax and the key limit make them, and does not model the separator's way into the parent, the new root, and the other cursors.
- SlottedPage.Page.NodeAdd: keeps mp_ptrs in an array of its own, so that slots and nodes do not run into each other is the inequality mp_lower <= mp_upper; MDB_RESERVE, which leaves the data bytes unwritten, is not modelled.
- Leaf2Page.Leaf2.NodeAdd: requires room for the key, because the code relies on its callers for that.
- IdSort.Sort: from 0x40000004 ids on whether a particular list makes `l + ir` overflow depends on all its ids, through every later partition; stated is that some list of each such length does.
- FreelistFill.Save: the pages of a reserved record are taken to be in the tree, dirty or spilled, when the record is filled, so that filling it moves no page; that they were made writable when it was reserved is the B-tree code's part.
- FreelistFill.MergeLoose: sorts the loose pages in a buffer of its own instead of the unused end of me_pghead.
- WriteTxn.Txn.OvpageFree: requires n to be the number of pages a listed run was entered with, which the code reads from mp_pages.
- WriteTxn.Txn.PageDirty: requires a page that is not listed and a list that is not full, as the assertion in the code does; PageLists.Untracked and PageLists.TrackedUnspilled are why its callers may.
- WriteTxn.Txn.PageSpill: leaves open which pages are chosen; SpillList.SpillPages has the choice.
- WriteTxn.Txn.PageAlloc: the dirty list and the spill list are sets of page numbers here; their array form is in DirtyList, SpillList, NestedCommit and DirtyMerge.
- DirtyMerge.CommitLists: appending the child's free and loose lists to the parent's is not modelled.
- SpillList.SpillPages: how many pages are needed is a parameter, and so are the pages held back; that mdb_page_flush then takes the spilled entries out of the dirty array is not modelled on arrays.
- MDB_NOSYNC, MDB_NOMETASYNC and MDB_MAPASYNC, which give up durability, and a torn meta page.
- A failed meta page write, after which the page cache may hold new roots under the old transaction id.
- Files, maps, mutex implementations, process liveness and the Windows branches.
- MDB_VL32, MDB_PREVSNAPSHOT, DUPSORT sub-pages and sub-databases, xcursor refresh, rebalancing and deletion above the page level.
- Searching for the first or last leaf, which compares no keys.
- mdb_env_cwalk, the tree walk that fills the copy buffers.
- Cryptographic strength, constant time, and the wiping of keys and contexts.
- Overflow of the int sum in the Luhn loop, which needs texts of tens of millions of symbols.
- Packing height and index into one 64-bit number, and the other headers under `include/`.
