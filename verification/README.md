# GrumpyDB: verified models of its core

GrumpyDB is a document database with a paged storage engine, log-shipping
replication and a consistent-hash cluster. This project models the parts whose
correctness is hardest to see by reading, and proves it for all inputs, all runs
and all interleavings. Nothing here executes the database.

| area | files |
|---|---|
| B+Tree index | `BTreeShape`, `BTreeSteps`, `BTreePages`, `BTreeSearch`, `BTreeRebalance` (theory), `BTree` (the operations), `BTreeCursor`, `BTreeRuns`, `Keys`, `PageStore`, `PageKeys`, `NodeLayout` |
| node pages and the index file | `NodeCodec`, `IndexFile`, `LittleEndian` |
| buffer pool | `BufferPool`, `BufferPoolRuns`, `LruInclusion` |
| WAL replication | `WalTailer`, `Appliers`, `Replication`, `ReplicationGaps`, `ReplicationProgress` |
| hash ring and rebalancing | `Ring`, `Rebalance` |
| wire formats | `Frames` (replication), `Responses` (client protocol) |
| cluster and server state | `Gossip`, `ConnectionLimits` |

`dafny verify dfyconfig.toml` checks everything.

## How the models are built

*B+Tree.* The tree is a class over a page store, with the source's operations as
methods that read and write pages. A ghost tree stands beside the pages. The
invariant says that the pages are the ghost tree's, that the leaf pages form one
doubly linked list, that separators bound their subtrees, that all leaves lie at
depth `height`, that every node but the root is between its minimum and maximum,
and that the allocated pages are the metadata page plus one page per node. A node
in the middle of a split or merge is a tree with a hole: the zipper `Ctx` is the
path back to the root. Keys are reals: `Keys.RankIsOrder` embeds byte strings
under lexicographic order into them, so every result holds for both key types. A
node's entry counter is kept beside its entries, as the source keeps it, and every
save must show that it is their number (`PageManager.Save`), since only so many are
read back.

*Step systems.* Replication and the connection caps are state machines whose steps
are the atomic actions of the code; theorems quantify over all step sequences.

*Parameters.* CRC32, UTF-8 validity, the hash that places virtual nodes, the standard
library's binary search (which may land on any of several equal elements;
`Rings.LowerBoundSearches` gives one), the WAL record codec, the outcome of engine
writes, saves and peer writes, and the page id a new cached page gets are parameters.
Each origin's HLCs are positive and increase in log order, and the WAL file grows by
appending.

## Where the code does less than one would expect

- A page written to disk gets its checksum field (bytes 28 to 31) overwritten while
  the cached copy keeps the old bytes. A fetch shows the last bytes written up to
  that field, and whole pages come back exactly if and only if clients write only
  pages that already carry their checksum: `BufferPoolRuns.ExactIffStamped`. Even a
  page that is only created can read differently after an eviction
  (`BufferPoolRuns.NewPagesExactly`), and a page of zeros does unless its checksum is
  zero (`BufferPoolRuns.ZeroPageExactly`).
- The pool takes the client's word that a page is clean. A last unpin that forgets
  the dirty mark loses the change with the frame: `BufferPools.ForgottenMark`.
- A page freed while the free-list page holds 2039 others is never used again. A file
  that allocates and frees more pages than that reaches this state
  (`PageStore.OverflowLoses`), and over every run of an index, pages are lost exactly
  by the deletes that free more than the list has room for (`BTreeRuns.LostExactly`).
- A buffer pool with no frames never reads the disk, so "more frames never read
  more" has exactly that exception: `LruInclusion.ReadsMonotone`.
- `IdempotentApplier::apply` moves the watermark before the engine applies the
  record. If the engine refuses it and the applied set is not reloaded, the record
  is skipped and acknowledged: `ReplicationGaps.GapWithoutReload`.
- Even with reloading, one origin's save persists the whole applied set, including
  the watermark of a record another origin is still applying. A crash then loses
  that record: `ReplicationGaps.GapFromSharedSave`. With one origin this cannot
  happen.
- These are the only two ways: at every point of every careful run, a step makes the
  loss of a record possible (`ReplicationGaps.LossIffUnsafe`), and makes it possible
  that the leader takes a record for applied that was not
  (`ReplicationGaps.FalseAckIffUnsafe`), if and only if it reconnects an origin whose
  watermark is ahead of what was applied, or saves while another origin's is.
- Outside these, a follower recovers: from every point of every careful run, a restart
  and one task left alone end with the whole log of the origin applied, saved and
  acknowledged: `ReplicationProgress.CatchesUp`.
- A replication frame whose token or reason exceeds 65535 bytes encodes without
  error and is refused by the decoder: `Frames.FrameRoundTrip`.
- A response whose simple or error message contains CRLF never parses back:
  `Responses.RoundTripExactly`.
- An error line without the `ERR ` marker is accepted and parses to its whole text, so
  two different lines parse to the same error: `Responses.ParsesExactly`.
- The response parser counts the two characters after a bulk string's data without
  looking at them: `Responses.BulkExactly`.
- Gossip reports that tie for the latest time and differ leave a result that depends
  on their order, and nothing else does: `Gossip.OrderIrrelevantExactly`.
- The guard that keeps a peer's known status from becoming unknown never acts: a
  report with a time is never unknown by then: `Gossip.CanonicalKnown`.
- A refused connection is documented to change nothing. It leaves a zero entry in the
  per-IP table if and only if addresses are allowed no connections and this one has
  no entry: `ConnectionLimits.RefusalLeavesEntry`.
- Virtual nodes may share a position. The ring keeps them in order, but a lookup at
  exactly that position starts wherever the binary search lands: it is determined if
  and only if one node owns them all (`Rings.LookupExactly`). Removing a node leaves
  the others in order for every search if and only if no two nodes share the position
  beside a third (`Rings.RemovalExactly`, with `Rings.SharedPositionMoves` as an
  instance).
- A ring with no virtual nodes per node, which the configuration allows, returns empty
  preference lists: `Rings.Ring.PreferenceList`.
- An add-node transfer for a node already in the ring moves nothing, but if that
  node is the local one it ships every document it owns to itself:
  `Rebalances.RejoinPlan`.
- When the last node of the ring leaves, the empty ring names the empty node id as
  primary. Documents of a node with that very id are then not considered:
  `Rebalances.LeaveConsiders`.
- The documented 256-byte maximum key size is not enforced. A leaf has room for an
  entry up to 8140-byte keys, and nodes are rebalanced up to 2708: `NodeLayout.CapsWork`,
  `NodeLayout.MinimaPositive`.

## Model

| member | source | states |
|---|---|---|
| `BTreeRuns.Run` | src/btree/ops.rs:55-579 | over every sequence of inserts, deletes, searches and reopenings, the answers are those of a finite map, the final tree stands for the map's final value, `num_entries` is its size, every key on a page was inserted, and each operation only allocates or only frees pages |
| `BTreeRuns.Perform` | src/btree/ops.rs:55-262 | one operation, successful or refused, answers and changes the contents as the finite map does and keeps the whole invariant |
| `BTreeRuns.PageAccounting` | src/btree/ops.rs:353-579 | the allocated pages are exactly the metadata page and the tree's nodes, each once: no leak, no page in use freed, no page shared |
| `BTreeRuns.LeafList` | src/btree/ops.rs:127-157 | reading pages only: first children and then next links visit every leaf once and stop, prev links go back over the same leaves, and the entries met are all of the tree's in ascending order |
| `BTreeRuns.TallTreesAreFull` | src/btree/node.rs:68-91 | a tree of height h >= 2 holds at least 2 * leaf_min * (internal_min + 1)^(h - 2) entries |
| `BTreeRuns.LostExactly` | src/btree/ops.rs:353-579 | at every point of every run, all pages of the file are in use or reusable if and only if no delete so far freed more pages than the free list had room for |
| `BTrees.BTree.constructor` | src/btree/mod.rs:70-99 | a new index is a valid tree of height 1 with root page 2 and no contents |
| `BTrees.BTree.Open` | src/btree/mod.rs:102-111 | root, height and entry count of the metadata page give back the tree that was there |
| `BTrees.BTree.FlushMeta` | src/btree/mod.rs:114-120 | writing the metadata page completes the invariant and leaves the contents alone |
| `BTrees.BTree.Search` | src/btree/ops.rs:55-76 | returns what the contents map the key to, or nothing |
| `BTrees.BTree.FindLeafWithPath` | src/btree/ops.rs:81-95 | ends at the leaf whose bounds contain the key, with the path of parents and child indices that leads there |
| `BTrees.BTree.Insert` | src/btree/ops.rs:102-139 | adds the entry and keeps the invariant through every split, using free pages before new ones, or refuses a duplicate and changes nothing |
| `BTrees.BTree.SplitAndPropagate` | src/btree/ops.rs:121-135 | saves the halves of an overfull leaf, relinks its neighbour and ends in a whole tree with the same entries; the halves stand on the two pages, cut in the middle |
| `BTrees.BTree.SplitLeaf` | src/btree/ops.rs:144-161 | the two halves of an overfull leaf, linked to each other and to the old successor, on a page not in use before |
| `BTrees.BTree.SplitInternal` | src/btree/ops.rs:165-192 | the two halves of an overfull internal node around the promoted separator |
| `BTrees.BTree.PropagateSplit` | src/btree/ops.rs:196-236 | carries a promoted separator up through any number of splits to a whole tree with the same leaves |
| `BTrees.BTree.SplitParent` | src/btree/ops.rs:214-219 | an overfull parent becomes two well-formed nodes, cut around the median, again waiting for their separator one level up; no other page changes |
| `BTrees.BTree.GrowRoot` | src/btree/ops.rs:222-236 | a new root over the two halves on a new page gives a valid tree one level higher; no other page changes |
| `BTrees.BTree.Delete` | src/btree/ops.rs:243-262 | removes the entry and keeps the invariant through every borrow, merge and collapse, freeing pages only, or reports a missing key and changes nothing |
| `BTrees.BTree.RebalanceLeaf` | src/btree/ops.rs:264-308 | an underfull leaf is refilled or merged, ending in a whole tree with the same entries: it borrows from the left sibling if that is above the minimum and joins it otherwise, and only the first child turns to its right sibling |
| `BTrees.BTree.RedistributeLeafFromLeft` | src/btree/ops.rs:310-330 | moves one entry over from the left leaf and its separator with it; no other page changes |
| `BTrees.BTree.RedistributeLeafFromRight` | src/btree/ops.rs:332-351 | the mirror image |
| `BTrees.BTree.MergeLeaves` | src/btree/ops.rs:353-378 | the right leaf's entries follow the left leaf's on its page; relinks the list around the freed page, and continues upward |
| `BTrees.BTree.RemoveFromInternal` | src/btree/ops.rs:381-437 | takes exactly the merged child and its separator out of the parent, lets an emptied root give way to its last child, and otherwise continues upward; no leaf page changes |
| `BTrees.BTree.RebalanceInternal` | src/btree/ops.rs:439-475 | an underfull internal node is refilled or merged, ending in a whole tree with the same leaves, with the same preference among siblings |
| `BTrees.BTree.RedistributeInternalFromLeft` | src/btree/ops.rs:477-511 | rotates one child through the parent separator |
| `BTrees.BTree.RedistributeInternalFromRight` | src/btree/ops.rs:513-544 | the mirror image |
| `BTrees.BTree.MergeInternal` | src/btree/ops.rs:546-579 | joins two internal nodes around their separator, frees one page, and continues upward |
| `BTreePages.FindChildIndex` | src/btree/ops.rs:590-592 | the first separator greater than the key |
| `BTreePages.DescendBounds` | src/btree/node.rs:194-205 | the chosen child's bounds contain the key |
| `BTreePages.InsertSepIs` | src/btree/node.rs:209-239 | inserting a separator puts the new right child after the split child, at either end or inside |
| `BTreePages.MapInsert` | src/btree/node.rs:349-356 | an entry placed in order adds exactly its key to the contents |
| `BTreeCursors.Range` | src/btree/cursor.rs:68-89 | returns, in ascending order, exactly the entries with start <= key < end, for every tree and bounds |
| `BTreeCursors.Collect` | src/btree/cursor.rs:74-88 | takes entries off a cursor up to the first at or past the end key |
| `BTreeCursors.First` | src/btree/cursor.rs:97-115 | a cursor that has every entry still to deliver |
| `BTreeCursors.From` | src/btree/cursor.rs:52-63 | a cursor that has exactly the entries at or after the key to deliver, also when its leaf has none |
| `BTreeCursors.BTreeCursor.NextEntry` | src/btree/cursor.rs:122-144 | delivers the next entry, crossing empty and exhausted leaves, and ends exactly when none is left |
| `Keys.RankIsOrder` | src/btree/key.rs:128-132 | byte strings in lexicographic order map into the reals in order, without collisions |
| `NodeLayout.CapsWork` | src/btree/node.rs:68-91 | the capacities that splits and merges rely on hold exactly when a leaf has room for an entry, which is up to 8140-byte keys |
| `NodeLayout.MinimaPositive` | src/btree/node.rs:83-91 | the minimum occupancies are positive exactly up to 2708-byte keys |
| `PageStore.PageManager.Allocate` | src/page/manager.rs:71-88 | allocates exactly one page that was not allocated: the most recently freed, or when none is free the next at the end of the file |
| `PageStore.PageManager.Free` | src/page/manager.rs:125-142 | exactly the given page stops being allocated, and it waits last on the free list unless that holds 2039 pages |
| `PageStore.LostCount` | src/page/manager.rs:163-226 | every page is in use or reusable exactly when the file has one page more than those in use and those on the free list together |
| `PageStore.OverflowLoses` | src/page/manager.rs:190-226 | a new file that allocates n pages and frees them all loses none exactly when n is at most 2039 |
| `NodeCodec.ToBytes` | src/btree/node.rs:164-191 | the buffer holds header, count, links, key configuration, one slot per entry, and zeros after them, for both node kinds and key types |
| `NodeCodec.FromBytes` | src/btree/node.rs:280-313 | reads any page as the recursive decoder does, failing where the source would index out of range |
| `NodeCodec.NodeRoundTrip` | src/btree/node.rs:135-191 | a written page reads back as its node exactly when the counter is the number of entries |
| `NodeCodec.DecodeExactly` | src/btree/node.rs:135-313 | a page reads as a node exactly when every field, key and pointer of it stands at its offset, and cannot be read exactly when a counted slot leaves the page or a key length its slot |
| `NodeCodec.HeaderFields` | src/page/mod.rs:84-113 | the header bytes of a written page: id, kind, no flags or slots, bounds of the free space, no neighbours or log position |
| `NodeCodec.PagesTellNodesApart` | src/btree/node.rs:316-341 | no two nodes share a page image |
| `NodeCodec.KeyRoundTrip` | src/btree/key.rs:154-171 | a key within the configured size reads back from its padded slot |
| `NodeCodec.SlotRoundTrip` | src/btree/node.rs:293-303 | an entry reads back from its slot |
| `NodeCodec.SlotsApart` | src/btree/node.rs:57-65 | slots do not overlap |
| `NodeCodec.CapacityIsExact` | src/btree/node.rs:68-79 | n slots end inside the page exactly when n is at most the capacity |
| `NodeCodec.StampKeeps` | src/page/mod.rs:143-146 | stamping the checksum leaves the page the node's |
| `IndexFile.NodesFit` | src/btree/node.rs:68-91 | every page of a well-formed tree is a node within the codec's limits |
| `IndexFile.TreeReadsBack` | src/btree/ops.rs:30-42 | the file of a well-formed tree gives back the same metadata and key configuration, and every node page with its keys, pointers and links |
| `IndexFile.LoadsByType` | src/btree/ops.rs:30-38 | a page loads as a node exactly when its type byte is that kind's and its bytes decode to it; every other type is refused |
| `IndexFile.RunAndStore` | src/btree/ops.rs:55-579 | over every run that inserts keys of the configured size, a file of at most 2^32 pages reads back |
| `IndexFile.OpenFile` | src/btree/mod.rs:102-111 | root, height, entry count and key configuration read from the bytes of the metadata page give back the tree |
| `IndexFile.MetaToBytes` | src/btree/mod.rs:114-152 | the metadata page holds root, height, entry count and key configuration at their offsets, and zeros after them |
| `IndexFile.MetaRoundTrip` | src/btree/mod.rs:147-163 | the metadata page reads back exactly when its numbers fit their fields |
| `LittleEndian.RoundTrip` | src/page/mod.rs:102-131 | a number survives a fixed-width field exactly when it fits, and is otherwise reduced modulo the width |
| `LittleEndian.LowFirst` | src/page/mod.rs:102-131 | byte i holds the i-th digit to base 256 |
| `BufferPools.BufferPool.FetchPage` | src/buffer/pool.rs:58-82 | returns the page's last bytes, pinned once more, with at most the checksum field rewritten; changes no other page, moves no pinned one, and fails exactly when every frame is pinned or the page does not exist; a hit touches only its frame, a miss reads once and writes exactly if the page it replaces is dirty, and what it reads has a valid or no checksum |
| `BufferPools.BufferPool.NewPage` | src/buffer/pool.rs:87-101 | the new page is zeros, pinned and dirty, in the frame chosen for it; when the pool is exhausted the page stays allocated with its disk contents |
| `BufferPools.BufferPool.Unpin` | src/buffer/pool.rs:104-111 | drops one pin and marks the page, or reports a page that is not cached; no client can tell when the last unpin of a changed page is marked |
| `BufferPools.ForgottenMark` | src/buffer/pool.rs:104-111 | a last unpin of a changed page without the mark breaks the invariant and loses the change when its frame is emptied |
| `BufferPools.BufferPool.ChangeFrame` | src/buffer/pool.rs:150-152 | changing a pinned frame changes the view of that page only |
| `BufferPools.BufferPool.FlushPage` | src/buffer/pool.rs:114-126 | writes a page back exactly if it is dirty, invisibly, so that the disk agrees with the view |
| `BufferPools.BufferPool.FlushAll` | src/buffer/pool.rs:129-142 | afterwards the disk agrees with the view on every page without unmarked changes, no page is dirty, and each dirty page was written once |
| `BufferPools.BufferPool.FindFreeFrame` | src/buffer/pool.rs:178-215 | empties the first free frame or the unpinned one accessed longest ago, writing its page exactly if it is dirty and moving nothing else, and fails exactly when all are pinned |
| `BufferPools.EmptiedKeeps` | src/buffer/pool.rs:192-214 | eviction changes no page's view, pins or marks and keeps table and frames in bijection |
| `BufferPools.FetchedIs` | src/buffer/frame.rs:41-70 | a hit or a miss has the same visible effect: one more pin and nothing else |
| `BufferPoolRuns.Run` | src/buffer/pool.rs:58-142 | the pool's methods perform every sequence of operations with the answers `Behaves` allows; those outside the clients' discipline are skipped |
| `BufferPoolRuns.RunsBehave` | src/buffer/pool.rs:58-142 | over every run in which pages change only while pinned and the last pin on a changed page goes dirty, each fetch shows the last bytes written but for the checksum field, fails exactly for want of a page or a frame, and each full flush leaves them on disk |
| `BufferPoolRuns.DisciplineExactly` | src/buffer/pool.rs:104-111 | for a page whose change is not on disk, an unpin is within the clients' discipline if and only if it keeps the pool's invariant |
| `BufferPoolRuns.ExactIffStamped` | src/page/mod.rs:143-146 | whole pages always come back exactly if and only if clients write only images that carry their checksum |
| `BufferPoolRuns.ZeroPageExactly` | src/buffer/pool.rs:87-101 | new pages of zeros come back exactly if and only if their checksum is zero and the allocated image carries its own |
| `BufferPoolRuns.NewPagesExactly` | src/buffer/pool.rs:87-101 | over every run that only creates pages, whole pages come back exactly if and only if both the allocated and the initial image carry their checksum |
| `BufferPoolRuns.CrowdedIff` | src/buffer/pool.rs:178-215 | no frame is available exactly when as many pages are pinned as there are frames |
| `BufferPoolRuns.FreshStands` | src/buffer/pool.rs:40-50 | a new pool shows its clients the file's contents |
| `LruInclusion.RunTrace` | src/buffer/pool.rs:58-82 | after any trace of fetch-then-unpin on a fresh pool it caches exactly the most recently used pages, as many as there are frames, and has read once per miss |
| `LruInclusion.Compare` | src/buffer/pool.rs:58-82 | two fresh pools on the same trace: the larger caches all the smaller does and has read no more |
| `LruInclusion.FreshFollows` | src/buffer/pool.rs:40-50 | a new pool starts with an empty recency list |
| `LruInclusion.CachedIsPrefix` | src/buffer/pool.rs:189-198 | least-recently-used replacement with c frames holds the first c entries of the recency list |
| `LruInclusion.RecentIs` | src/buffer/pool.rs:189-198 | the recency list names exactly the pages of the trace, once each, those last used later first |
| `LruInclusion.CachedExactly` | src/buffer/pool.rs:178-215 | a page is cached exactly when fewer other pages were used since than there are frames |
| `LruInclusion.Inclusion` | src/buffer/pool.rs:178-215 | a larger pool caches everything a smaller one does |
| `LruInclusion.ReadsMonotone` | src/buffer/pool.rs:68-71 | a larger pool reads no more than a smaller one, except exactly when the smaller has no frames |
| `WalTailers.WalTailer.PollOnce` | grumpydb-replication/src/tailer.rs:186-212 | delivers the log's next record exactly when all of it is in the file, whatever pieces the file grew by |
| `WalTailers.WalTailer.RefillPending` | grumpydb-replication/src/tailer.rs:237-250 | afterwards the bytes read are the file |
| `WalTailers.WalTailer.Drain` | grumpydb-replication/src/tailer.rs:186-250 | repeated polling delivers every complete record in order and keeps the incomplete tail |
| `Appliers.AppliedSet.Observe` | src/wal/applied_set.rs:85-94 | moves the origin's watermark up and never down, says whether it moved, and touches no other origin |
| `Appliers.IdempotentApplier.Apply` | grumpydb-replication/src/idempotent.rs:146-181 | filters, moves the watermark, applies and saves, with each way of failing; a record that cannot be decoded is refused and changes nothing |
| `Appliers.ApplyRefines` | grumpydb-replication/src/idempotent.rs:146-181 | an uninterrupted call ends where the corresponding steps of the step system end |
| `Replication.StepKeeps` | grumpydb-replication/src/tasks.rs:266-326 | from a state satisfying the invariant, an enabled step leads to one that satisfies it exactly when it is safe |
| `Replication.NoGaps` | grumpydb-replication/src/tasks.rs:446-508 | in every run of ships, reads, applies, saves, drops, reconnects and crashes with the stated care, the engine's first-time applies of each origin are a prefix of its log, in order |
| `Replication.DeliveredAboveSaved` | grumpydb-replication/src/idempotent.rs:79-82 | in every run a record reaches the engine only above the persisted watermark, and is a record of the link's origin |
| `Replication.DeliveredInOrder` | grumpydb-replication/src/tasks.rs:446-508 | in every careful run it is the next of its origin's log or a re-delivery |
| `Replication.PeerTrails` | grumpydb-replication/src/tasks.rs:353-361 | in every run the leader's high-water mark never passes the follower's applied watermark |
| `Replication.AcksAreTrue` | grumpydb-replication/src/tasks.rs:463-489 | in every careful run neither passes what the engine applied, and every record of the origin at or below the leader's mark was applied |
| `Replication.WatermarksRise` | grumpydb-replication/src/tasks.rs:353-361 | while a link is up neither watermark goes down, whatever steps are taken |
| `ReplicationProgress.AppliedExactly` | grumpydb-replication/src/tasks.rs:463-489 | in every run an idle task that has read records reports exactly the HLC of the last one it read, at its place in the origin's log |
| `ReplicationProgress.AckDelivers` | grumpydb-replication/src/tasks.rs:266-361 | in every run its report, with none under way before it, makes the leader's mark exactly that HLC |
| `ReplicationProgress.Resumes` | grumpydb-replication/src/idempotent.rs:79-82 | in every run a new subscription brings exactly the origin's records at or above the watermark on disk, in log order |
| `ReplicationProgress.CatchesUp` | grumpydb-replication/src/tasks.rs:446-508 | from every point of every careful run, a restart and one task left alone are careful and end with every record of the origin applied in order, its last HLC on disk, and the leader's mark exactly there |
| `ReplicationProgress.ReconnectCareful` | grumpydb-replication/src/idempotent.rs:155-180 | reconnecting without a restart is careful exactly when no apply of the origin was cut short since the applied set was loaded |
| `ReplicationGaps.GapWithoutReload` | grumpydb-replication/src/idempotent.rs:155-169 | a run without reloading after a refused record that skips it, while the leader receives an acknowledgement at or above it |
| `ReplicationGaps.GapFromSharedSave` | grumpydb-replication/src/idempotent.rs:171-180 | a run in which another origin's save and a crash lose a record although the set was reloaded |
| `ReplicationGaps.LossIffUnsafe` | grumpydb-replication/src/idempotent.rs:155-180 | at every point of every careful run, a careful continuation that skips a record exists after a step if and only if the step is unsafe: a reconnect of an origin, or a save beside one, whose watermark is ahead of what was applied |
| `ReplicationGaps.FalseAckIffUnsafe` | grumpydb-replication/src/idempotent.rs:155-180 | at every point of every careful run, a careful continuation in which the leader takes an unapplied record for applied exists after a step if and only if the step is unsafe |
| `Rings.Ring.AddNode` | grumpydb-ring/src/ring.rs:140-167 | for every hash, the ring holds exactly the virtual nodes of its nodes in order, now with the new one, shared positions included; a present node changes nothing |
| `Rings.Ring.RemoveNode` | grumpydb-ring/src/ring.rs:174-184 | the same without the node; an absent node changes nothing |
| `Rings.Ring.PreferenceList` | grumpydb-ring/src/ring.rs:193-224 | min(n, nodes) distinct nodes: a prefix of the owners met from where the search lands, and of the position's preference list wherever one node holds it |
| `Rings.ListsExtend` | grumpydb-ring/src/ring.rs:193-224 | asking for more nodes extends the list |
| `Rings.NearestFirst` | grumpydb-ring/src/ring.rs:186-224 | preference lists rank nodes by the clockwise distance, around the 64-bit circle, to the nearest of their virtual nodes, and by name at a shared position |
| `Rings.RingSize` | grumpydb-ring/src/ring.rs:140-167 | a valid ring has exactly the configured number of virtual nodes per node |
| `Rings.RunChanges` | grumpydb-ring/src/ring.rs:140-184 | every sequence of joins and leaves keeps the ring valid and ends with the expected nodes |
| `Rings.LookupIsAll` | grumpydb-ring/src/ring.rs:199-223 | wherever the search lands, the full list names every node once |
| `Rings.LookupExactly` | grumpydb-ring/src/ring.rs:199-223 | a position's list is the same wherever the search lands if and only if one node owns all virtual nodes at exactly that position |
| `Rings.RemovalExactly` | grumpydb-ring/src/ring.rs:174-224 | at a position, removing any node deletes it from the list and changes nothing else, for every search, if and only if no two nodes share the position beside a third |
| `Rings.LookupRemoval` | grumpydb-ring/src/ring.rs:174-184 | under that condition the list after a removal is the list before without the node |
| `Rings.SharedPositionMoves` | grumpydb-ring/src/ring.rs:199-204 | a ring of three where a search for the last equal position, after one of two sharing nodes leaves, reverses the other two |
| `Rings.PreferenceIsAll` | grumpydb-ring/src/ring.rs:193-224 | the full preference list names every node once, if nodes have virtual nodes at all |
| `Rings.RemovalLaw` | grumpydb-ring/src/ring.rs:181-182 | removing a node deletes it from every preference list and changes nothing else |
| `Rings.AdditionLaw` | grumpydb-ring/src/ring.rs:140-167 | adding a node changes a position's first choice to that node or not at all, and keeps the others' order |
| `Rings.StateIsNodeSet` | grumpydb-ring/src/ring.rs:233-243 | ring state depends on the set of nodes only, not on the order of changes |
| `Rebalances.AddNodeTransfer` | grumpydb-server/src/coordinator.rs:1219-1279 | considered counts the documents whose primary is the local node before and the joining one after; exactly those that were accepted are sent, and all of them when nothing failed; considered = transferred + failed |
| `Rebalances.RemoveNodeTransfer` | grumpydb-server/src/coordinator.rs:1311-1377 | considered counts the documents whose primary was the removed node, retained those whose new primary is the local one; with no failure every other of them is sent to its new primary, and no document with another primary is sent; considered = retained + transferred + failed |
| `Rebalances.JoinMoves` | grumpydb-server/src/coordinator.rs:1256-1258 | for a new node, at positions not shared by two nodes beside a third, the considered documents are exactly the local ones whose primary changes, and the new node is that primary |
| `Rebalances.RejoinPlan` | grumpydb-server/src/coordinator.rs:1219-1258 | for a node already in the ring nothing is planned, unless it is the local node, whose own documents are then all planned for itself |
| `Rebalances.LeaveMoves` | grumpydb-server/src/coordinator.rs:1347-1355 | at positions not shared by two nodes beside a third, a leaving node's go to their second choice and all others keep their primary |
| `Rebalances.LeaveConsiders` | grumpydb-server/src/coordinator.rs:1347-1355 | for every ring, position and search, a document is considered exactly when its primary was the leaving node, except when the last node leaves under the empty name |
| `Rebalances.PrimaryIsNearest` | grumpydb-ring/src/ring.rs:186-224 | wherever the search lands, the primary owns a virtual node at the least clockwise distance |
| `Rebalances.PlanIs` | grumpydb-server/src/coordinator.rs:1239-1258 | the plan contains exactly the considered documents, each with its new primary; `JoinMoves` and `LeaveConsiders` say which those are |
| `Frames.PayloadBack` | grumpydb-replication/src/frame.rs:272-313 | a payload decodes to its frame when its text fits the length prefix and is refused otherwise |
| `Frames.EnvelopeOpens` | grumpydb-replication/src/frame.rs:343-374 | an envelope decodes to what its payload decodes to, consuming exactly itself, whatever follows |
| `Frames.PrefixWaits` | grumpydb-replication/src/frame.rs:344-357 | a proper prefix of an envelope asks for more |
| `Frames.FrameRoundTrip` | grumpydb-replication/src/frame.rs:254-374 | an encoded frame comes back exactly when its text fits in 65535 bytes |
| `Frames.FrameLayout` | grumpydb-replication/src/lib.rs:16-28 | the documented layout: little-endian length, type, payload, and the checksum of type and payload |
| `Frames.PayloadLayout` | grumpydb-replication/src/frame.rs:38-313 | the seven type codes and the offset of every payload field |
| `Frames.PayloadExactly` | grumpydb-replication/src/frame.rs:376-553 | a payload decodes to a frame exactly when it is that frame's payload, with fields of their widths and fitting, valid text |
| `Frames.DecodesExactly` | grumpydb-replication/src/frame.rs:343-374 | the decoder accepts a frame of k bytes exactly when the buffer starts with the k bytes of its envelope, its checksum included |
| `Frames.WaitsExactly` | grumpydb-replication/src/frame.rs:344-357 | it asks for more exactly while the header is incomplete, or declares a length within the limit and the frame is incomplete |
| `Frames.RefusesExactly` | grumpydb-replication/src/frame.rs:343-368 | it refuses a length over the limit, an unknown type, and a checksum exactly when the declared length is over it, a complete frame has such a type, or a known one has another checksum |
| `Frames.PayloadRefusals` | grumpydb-replication/src/frame.rs:343-374 | any other refusal is that of the payload of a complete frame with a known type and the right checksum, and of no other |
| `Frames.PayloadErrors` | grumpydb-replication/src/frame.rs:376-553 | which error a payload gets: too short, too long by how much, or invalid text |
| `Frames.EncodesExactly` | grumpydb-replication/src/frame.rs:254-270 | encoding fails exactly when a record, token or reason makes the payload exceed a mebibyte |
| `Frames.DecisionsStand` | grumpydb-replication/src/frame.rs:343-374 | a decision of the decoder, good or bad, is not changed by further bytes; `DecodesExactly` and `RefusesExactly` say which it takes |
| `Frames.Session.ReadOneFrame` | grumpydb-replication/src/session.rs:474-514 | the answer and the bytes left depend on the byte stream alone, not on its chunking, for well-formed and malformed streams |
| `Frames.Session.ReadFrames` | grumpydb-replication/src/session.rs:352-355 | reading to the first error yields what the whole stream decodes to |
| `Frames.NextExactly` | grumpydb-replication/src/session.rs:474-514 | a read gives a frame exactly when the bytes start with its encoding, takes those off, and reports a clean close exactly on no bytes |
| `Frames.ReadsOnlyStreams` | grumpydb-replication/src/session.rs:352-355 | whatever bytes arrive, they are the encodings of the frames read, followed by bytes that fail as reported |
| `Frames.WholeStream` | grumpydb-replication/src/session.rs:474-514 | a stream of frames reads back as exactly those frames and then Closed |
| `Frames.CutStream` | grumpydb-replication/src/session.rs:497-511 | a stream cut mid-frame reads back as the complete frames and then an error |
| `Responses.RoundTripExactly` | grumpydb-protocol/src/response.rs:27-64 | a nested response followed by any text parses back with its exact length if and only if no simple or error message in it contains CRLF |
| `Responses.Prefixes` | grumpydb-protocol/src/response.rs:81-153 | every proper prefix of such a response is Incomplete |
| `Responses.SerializeInto` | grumpydb-protocol/src/response.rs:27-44 | every kind of response, arrays by a loop over their items, is written as the recursive serialisation |
| `Responses.ParseArrayItems` | grumpydb-protocol/src/response.rs:140-152 | the loop over array items computes the recursive parser, errors included |
| `Responses.ParseResponse` | grumpydb-protocol/src/response.rs:50-153 | the parser by first character, with its errors, computes the recursive specification |
| `Responses.ParsesExactly` | grumpydb-protocol/src/response.rs:50-153 | the parser is exactly the grammar: it reads a response and a length if and only if the input starts with a text of that length for that response, error lines with and without their marker and arrays of any depth included |
| `Responses.ErrorsExactly` | grumpydb-protocol/src/response.rs:99-153 | after a header line, each error is given exactly for a number that is none, bulk data cut short, or the first failing item of an array |
| `Responses.NoHeader` | grumpydb-protocol/src/response.rs:50-64 | before one, an unknown first character or incomplete input |
| `Responses.SignedExactly` | grumpydb-protocol/src/response.rs:99-115 | a signed 64-bit number is read from the spellings of its value, with sign and leading zeros, and from nothing else |
| `Responses.UnsignedExactly` | grumpydb-protocol/src/response.rs:133-138 | an unsigned one likewise, without a minus sign |
| `Responses.BulkExactly` | grumpydb-protocol/src/response.rs:108-131 | an input reads as a bulk string of given data and length exactly when it starts with a length line for that data, the data and two more characters, whatever they are |
| `Responses.IntBack` | grumpydb-protocol/src/response.rs:99-106 | every 64-bit integer survives printing and parsing |
| `Gossip.MergeAllKeeps` | grumpydb-server/src/coordinator.rs:1455-1507 | over every sequence of merges, last-seen never decreases, a known status never becomes unknown, and a routable address never becomes unroutable |
| `Gossip.LatestWins` | grumpydb-server/src/coordinator.rs:1471-1492 | status, last-seen and virtual nodes end up those of the latest report, unknown read as up and missing virtual nodes as all, unless the peer was known to be later |
| `Gossip.StaleNews` | grumpydb-server/src/coordinator.rs:1471-1492 | untimed or older reports change at most the address |
| `Gossip.LastRoutable` | grumpydb-server/src/coordinator.rs:1479-1485 | over every sequence of merges, the last routable address reported remains |
| `Gossip.FirstAddress` | grumpydb-server/src/coordinator.rs:1479-1485 | without a routable report a known address stays, and an empty one becomes the first reported that is not empty |
| `Gossip.UnroutableExactly` | grumpydb-server/src/coordinator.rs:1517-1520 | the unroutable addresses are the IPv4 and IPv6 wildcard hosts and the IPv4 loopback host, alone or with a port |
| `Gossip.UnknownExactly` | grumpydb-server/src/coordinator.rs:1509-1515 | a status is unknown in any capitalisation and no other spelling |
| `Gossip.CanonicalKnown` | grumpydb-server/src/coordinator.rs:1486-1489 | a status reported with a time is never unknown once made canonical |
| `Gossip.OrderFree` | grumpydb-server/src/coordinator.rs:1455-1507 | with distinct timestamps the outcome does not depend on the order of arrival |
| `Gossip.OrderIrrelevantExactly` | grumpydb-server/src/coordinator.rs:1455-1507 | for every peer entry and every collection of reports, all orders of arrival agree on status, time and virtual nodes if and only if the reports that can win agree |
| `Gossip.PeersIndependent` | grumpydb-server/src/coordinator.rs:490-524 | each peer's entry is the merge of the reports about it, whatever else arrived |
| `Gossip.MessageMerges` | grumpydb-server/src/coordinator.rs:490-524 | one message merges the sender's own report into the sender's entry, and into every entry but the local node's all that is listed about it, in order |
| `Gossip.Coordinator.MergePeerRuntime` | grumpydb-server/src/coordinator.rs:1455-1507 | updates exactly the reported peer, by the merge |
| `Gossip.Coordinator.MergeGossipFromPeer` | grumpydb-server/src/coordinator.rs:490-524 | merges the sender's report and then every listed peer but the local node, in order |
| `ConnectionLimits.StepKeeps` | grumpydb-server/src/limits.rs:136-192 | every atomic action of every thread keeps the books |
| `ConnectionLimits.Conservation` | grumpydb-server/src/limits.rs:136-192 | in every interleaving the global count is the sum of the per-IP counts plus the threads midway, per-IP counts are the connections held, and neither cap is exceeded |
| `ConnectionLimits.Decides` | grumpydb-server/src/limits.rs:142-170 | in every interleaving an acquire gets past the first cap exactly when connections held plus threads midway are below it, reserves exactly when the counter has not moved, and is granted exactly when its address holds fewer than the second cap |
| `ConnectionLimits.AcquireAlone` | grumpydb-server/src/limits.rs:136-171 | from every state at rest, an undisturbed acquire succeeds exactly when both caps leave room; a refusal names the cap met first and changes neither counter nor connections |
| `ConnectionLimits.RefusalLeavesEntry` | grumpydb-server/src/limits.rs:128-169 | a refusal changes the per-IP table exactly when addresses are allowed no connections and this one has no entry |
| `ConnectionLimits.ReleaseUndoes` | grumpydb-server/src/limits.rs:173-192 | acquiring and releasing restores the counter, the connections and every count, and leaves no entry for an address without connections |
| `ConnectionLimits.AtRest` | grumpydb-server/src/limits.rs:173-192 | with no call under way the global count is the sum of the per-IP counts |
| `ConnectionLimits.GuardNeverActs` | grumpydb-server/src/limits.rs:184-191 | giving a slot back never finds the counter at zero |

## Left out

- BTrees.BTree.Open: takes the metadata page as a record and the key configuration as a parameter; reading both from bytes is `IndexFile.OpenFile`.
- IndexFile.TreeReadsBack: takes the widths of a page's numbers and keys as given; `IndexFile.RunAndStore` derives them from what a run inserts.
- NodeCodec.ToBytes: requires keys within the configured size, which the source only asserts in debug builds.
- BufferPools.BufferPool.NewPage: the allocated page id is a parameter that is not cached; frames are values in a sequence, so aliasing of frame references is not captured.
- BufferPools.BufferPool.Unpin: requires the pin count to be positive, which the source only asserts in debug builds.
- Appliers.IdempotentApplier.Apply: covers one call without interleaving; interleavings are the step system's.
- I/O failures in the tree and the pool, and `BufferPool::page_manager`, which bypasses the cache.
- WAL truncation under a live tailer, WAL records, recovery, the HLC clock and vector clocks.
- Leader heartbeats, timeouts, handshakes, session authentication and the async runtime.
- The key ranges reported by `diff_owners`, which sample ownership at range starts.
- Slices of response text at positions that are not character boundaries, and array counts too large to reserve.
- The loopback bypass of the connection caps, command rate limits and login backoff.
- `update_peer_liveness`, which may lower a peer's last-seen time.
- Collections, documents, queries, snapshots, backups, TLS, HTTP, the REPL, drivers, benches and configuration are out of scope.
