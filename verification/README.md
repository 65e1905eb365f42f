# NorthstarDB storage kernel: a verified model

This project models the storage kernel of NorthstarDB (`rust/northstar-core/src`) in Dafny and proves what it keeps
over whole runs: the page-based B+tree with its byte layout, the transaction write-set, recovery from the log, the
MVCC version chains, the caches in front of the tree, the prefetch queue and the time windows of the analytics layer.

`dafny verify dfyconfig.toml` checks everything. Each main operation has two forms: a function on values that says
what it computes, and, where the Rust code updates fields or advances a loop, a class or a looping method proved
equal to that function. The theorems are about the functions, over all inputs, runs or reachable states.

## How the files fit together

| files | what they model |
|---|---|
| `Results`, `Bytes`, `Filters`, `Entries`, `Sums` | missing values and errors; filtered lists; byte-string keys in Rust's slice order with binary search, little-endian fields, runs of records; sorted entry sequences with lookup, upsert and removal; sums over map keys |
| `LeafNodes`, `LeafOps`, `Rebalance` | one leaf with its header arithmetic (`node.rs`, `header.rs`), inserting with a split (`insert.rs`), borrowing and merging (`borrow.rs`, `merge.rs`) |
| `LeafRow`, `RowAccepted`, `PageRuns`, `MergePages` | runs of leaf operations on a row of ordered leaves, when each is done, and what the page format does to them |
| `SearchTree`, `TreeUpdate`, `TreePut`, `PutAsUpdate`, `PutRuns`, `AnyOrderRuns`, `PutAccepted`, `TreeHeight` | search trees on a heap of pages, what `put` does to them, when that is a map update, which runs keep it so, what any run leaves, when a put is refused, and how high the tree grows |
| `Scans`, `Overflow`, `BTree`, `ScanAfterPut`, `ValueRuns` | scans, overflow chains, the tree object with its loops, what runs of puts leave for scans and reads |
| `PageCodec`, `PageLayout`, `TreePages`, `DiskRuns` | `to_bytes` and `from_bytes`, where each field stands, the pages of a tree as bytes, runs of puts on bytes |
| `DeltaLayer`, `DeltaCodec`, `Recovery`, `RecoveryOrder`, `RecoveryMeaning`, `VersionStore`, `VersionReads` | write-set, commit record bytes, log replay, its dependence on order and its meaning on the records of the log, version chains and exactly when their reads are right |
| `LruState`, `LruRuns`, `LruSizes`, `LruPins`, `LruShard` | one LRU shard: its steps, its runs, what its size counter and its pins count, the shard object |
| `ShardedCache`, `CacheObject`, `NodeVersions`, `NodeClones`, `NodeCache` | the sharded cache and its object, cached node versions with their index, clones that share the index, the node cache object |
| `Prefetch`, `Windows`, `MergeItems` | the bounded priority queue, tumbling and sliding windows, the k-way merge of scan items |

## What the code does not keep

Several textbook promises do not hold of this code. Where one fails, the model keeps the code's behaviour, a lemma
exhibits the failure, and another states exactly when the promise does hold.

* `put` always grows a new root after a split, because the leaf itself is on the path. A put is a map update if and
  only if it does not split, or splits the last non-empty leaf without dropping the entry
  (`PutAsUpdate.PutIsUpdateIff`, `PutAsUpdate.InnerSplitLoses`).
* The documentation calls the tree balanced, with all leaves at the same depth and logarithmic lookups. Since every
  split puts a root over the whole tree, it is a comb: its height is the number of leaves less one, a get may read as
  many pages as there are leaves, and the leaves are equally deep if and only if there are at most two
  (`TreeHeight.HeightIsLinear`, `TreeHeight.FirstLeafPath`). Right children never get a parent.
* A put can be refused although the page has a half with room; exactly when is `PutAccepted.PutRefusedIff`, and
  entries of comparable sizes never are (`PutAccepted.AnyRunAccepted`).
* A put that splits makes exactly the keys behind its own on other leaves unreachable; what a search still finds is
  always the last entry stored (`AnyOrderRuns.PutEffect`, `AnyOrderRuns.FoundIsLastOrNothing`).
* An insert that finds no room splits and, when the key belongs to the new half, silently leaves the entry out.
* A shrinking update sets the free space to zero, after which the next larger key is lost
  (`PutRuns.ShrinkingUpdateLosesNext`).
* A split does not relink the old leaf, so no run of puts ever links two leaves and a scan sees its start leaf only;
  it is complete if and only if nothing on a later leaf is wanted (`ScanAfterPut.ScanAfterRunIff`).
* A ten-byte value that starts FF FF is read as an overflow reference (`Overflow.PreparedResolves`).
* Borrowing from the left returns a separator that sends searches for the donor's last key to the wrong leaf
  (`Rebalance.BorrowFromLeftMisroutes`); merging left into right leaves the free space stale, and is sound only
  under the condition of `Rebalance.MergeLeftSoundIff`; the merge check admits pages that cannot be read back
  (`MergePages.MergeCorruptsPage`, exact condition in `MergePages.MergeLeftReadableIff`).
* Recovery depends on the order of the log when commits of one id disagree on a key they decide
  (`RecoveryOrder.LogOrderIrrelevantIff`).
* The cache documents that it is full only when everything is pinned; a pinned key passed over once is no longer
  tracked and can block its place after unpinning (`LruRuns.RefusedWithoutPins`, exact condition in
  `LruRuns.PutAcceptedIff`). With a limit of zero entries the limit is not kept (`LruRuns.RunsKeptIff`). An update
  to another size is not counted (`LruSizes.CounterStepIff`).
* A cloned node cache shares the version index but not the entries, so an invalidation through one is forgotten by
  the other (`NodeClones.CloneLosesInvalidation`); an invalidation is complete if and only if the index covers the
  page (`NodeClones.InvalidateAbsentIff`), which it does as long as the clone spares the page
  (`NodeClones.SparedStaysCovered`).
* A version chain read at a snapshot can return a version older than one it should see when LSNs come out of order;
  exactly when is `VersionReads.ReadsRightAfterRunIff`.
* Window alignment rounds toward zero, so a start far enough before the offset skips a whole window
  (`Windows.AlignedTightIff`).

## Model

| member | source | states |
|---|---|---|
| `Bytes.BinarySearch` | rust/northstar-core/src/btree/node.rs:97-106 | halving the range on ascending keys reports the number of leading keys below the sought one |
| `Bytes.LessIff` | rust/northstar-core/src/btree/node.rs:97-106 | keys are compared as byte slices: one is smaller exactly when, after a common beginning, it ends first or has the smaller byte |
| `LeafNodes.InsertKeepsValid` | rust/northstar-core/src/btree/node.rs:185-216 | an insert or update that passes the space check keeps the leaf sorted, counted and its free-space figure a lower bound; the figure stays exact unless the update shrinks its entry, and then it becomes 0 |
| `LeafNodes.RemoveKeepsValid` | rust/northstar-core/src/btree/node.rs:237-260 | removal gives back exactly the entry's bytes, without 16-bit overflow, and keeps validity and exactness |
| `LeafNodes.InsertMarks` | rust/northstar-core/src/btree/node.rs:185-216 | an insert or update sets DIRTY and no other flag, advances the generation by one modulo 2^64 and keeps the identity fields and the links |
| `LeafNodes.RemoveMarks` | rust/northstar-core/src/btree/node.rs:237-260 | a removal does that too and sets UNDERFULL exactly when it leaves a non-root leaf with fewer than 163 entries; removing nothing changes nothing |
| `LeafNodes.InsertAllAppends` | rust/northstar-core/src/btree/insert.rs:133-138 | moving an ordered list of larger entries into a leaf one by one appends them, or is refused |
| `LeafNodes.InsertAllIff` | rust/northstar-core/src/btree/insert.rs:133-138 | a valid leaf accepts an ordered continuation if and only if its header shows room for all of it |
| `LeafNodes.InsertAllFits` | rust/northstar-core/src/btree/insert.rs:133-138 | an exact leaf accepts every ordered continuation that fits its 16308-byte area |
| `LeafNodes.LeafNode.Put` | rust/northstar-core/src/btree/node.rs:185-216 | the in-place insert computes the specified leaf and reports whether it was an update; refused without change when the header shows too little space |
| `LeafNodes.LeafNode.Find` | rust/northstar-core/src/btree/node.rs:219-234 | the binary search over a sorted leaf finds what a linear search finds |
| `LeafNodes.LeafNode.Delete` | rust/northstar-core/src/btree/node.rs:237-260 | the in-place removal computes the specified leaf and returns the entry that was stored |
| `LeafOps.SplitConserves` | rust/northstar-core/src/btree/insert.rs:122-160 | splitting a valid leaf always succeeds, the two halves hold the old entries in order, both are valid with exact free space, and the links are as the code leaves them |
| `LeafOps.SplitSeparates` | rust/northstar-core/src/btree/insert.rs:122-160 | the separator is above every key that stays and at most every key that moves |
| `LeafOps.SplitLeafNode` | rust/northstar-core/src/btree/insert.rs:122-160 | the in-place split leaves the specified two leaves |
| `LeafOps.InsertOrSplitStores` | rust/northstar-core/src/btree/insert.rs:21-72 | after any outcome but failure the stored entries are the old ones with the new entry upserted, except exactly in the dropping case, where they are the old ones |
| `LeafOps.InsertFailsIff` | rust/northstar-core/src/btree/insert.rs:21-72 | an insert into a valid leaf is refused if and only if the header shows too little room and more than 3264 bytes are free, or nothing is stored, or the key belongs before the middle entry and the first half has no room for it either |
| `LeafOps.InsertSplitsIff` | rust/northstar-core/src/btree/insert.rs:21-72 | an insert splits if and only if it adds a new key and leaves at most 3264 bytes free, or finds too little room and is not refused |
| `LeafOps.InsertIntoLeaf` | rust/northstar-core/src/btree/insert.rs:21-72 | the in-place insert-or-split has the specified outcome |
| `Rebalance.BorrowFromRightConserves` | rust/northstar-core/src/btree/borrow.rs:126-152 | borrowing from the right leaves the concatenated entries unchanged |
| `Rebalance.BorrowFromRightDivides` | rust/northstar-core/src/btree/borrow.rs:126-152 | both leaves stay valid, the borrower's exactness is kept, the donor's lost, and the returned separator divides them |
| `Rebalance.BorrowFromLeftConserves` | rust/northstar-core/src/btree/borrow.rs:155-182 | borrowing from the left leaves the concatenated entries unchanged |
| `Rebalance.BorrowFromLeftValid` | rust/northstar-core/src/btree/borrow.rs:155-182 | both leaves stay valid; the donor's free-space figure becomes inexact |
| `Rebalance.BorrowFromLeftMisroutes` | rust/northstar-core/src/btree/borrow.rs:173-178 | the separator returned is always a key of the left leaf, so a search for it goes to the leaf that does not have it |
| `Rebalance.BorrowFromRightIff` | rust/northstar-core/src/btree/borrow.rs:107-116 | on valid leaves an entry moves if and only if the donor has more than 130 entries, both have at least 260, and the borrower shows room for it; the donor keeps at least 130 |
| `Rebalance.BorrowFromLeftIff` | rust/northstar-core/src/btree/borrow.rs:107-116 | the same in the other direction |
| `Rebalance.MergeRightConserves` | rust/northstar-core/src/btree/merge.rs:113-142 | a successful merge into the left leaf concatenates the entries, takes over the far link and keeps validity and exactness |
| `Rebalance.MergeLeftSoundIff` | rust/northstar-core/src/btree/merge.rs:145-175 | a merge into the right leaf concatenates and counts the entries and takes over the far link; its free-space figure is still a lower bound if and only if entries and figure fit the area together, for an exact leaf only when nothing was merged |
| `Rebalance.MergeRightSucceedsIff` | rust/northstar-core/src/btree/merge.rs:113-142 | a merge into a valid left leaf succeeds if and only if its header shows room for the right entries; with an exact figure, if and only if both leaves fit the 16308-byte area |
| `Rebalance.MergeLeftDoneIff` | rust/northstar-core/src/btree/merge.rs:103-110 | a merge into the right leaf is done if and only if the entries take at most 16324 bytes together; the check on their number never decides |
| `Rebalance.MergeCheckTooWeak` | rust/northstar-core/src/btree/merge.rs:103-110 | the check admits valid exact leaves whose merge to the left is refused half-way and whose merge to the right exceeds the leaf area |
| `MergePages.MergeLeftReadableIff` | rust/northstar-core/src/btree/merge.rs:145-175 | the leaf left by a merge to the right is read back from its page if and only if its keys are short and both leaves fit the leaf area or the overrunning bytes are those of the links |
| `MergePages.MergeCorruptsPage` | rust/northstar-core/src/btree/merge.rs:103-110 | the check admits valid exact leaves whose merged page is read back as something else |
| `Rebalance.BorrowFromRightLeaf` | rust/northstar-core/src/btree/borrow.rs:126-152 | the in-place borrow has the specified outcome, including the lost entry when the insert is refused |
| `Rebalance.BorrowFromLeftLeaf` | rust/northstar-core/src/btree/borrow.rs:155-182 | the same in the other direction |
| `Rebalance.MergeRightIntoLeft` | rust/northstar-core/src/btree/merge.rs:113-142 | the draining loop computes the specified merge |
| `Rebalance.MergeLeftIntoRight` | rust/northstar-core/src/btree/merge.rs:145-175 | the draining loop computes the specified merge |
| `LeafRow.RunRefinesReplay` | rust/northstar-core/src/btree/insert.rs:122-160 | over every run of inserts, deletes, splits, borrows and merges on a row of ordered leaves, the concatenated entries are what replaying the successful inserts and deletes on one sorted sequence gives, and stay strictly sorted |
| `LeafRow.RunStaysHonest` | rust/northstar-core/src/btree/node.rs:185-267 | over every run without a merge that oversteps the area, every free-space figure is a lower bound, entries stay within 16308 bytes and 16-bit arithmetic does not overflow; the figure is exact precisely when no shrinking update or donation happened since the leaf's last split, merges to the right aside |
| `LeafRow.StepValidIff` | rust/northstar-core/src/btree/merge.rs:145-175 | a step keeps every leaf valid if and only if it is not a merge to the right whose entries and old figure exceed the leaf area together |
| `LeafRow.RunFromNewLeaf` | rust/northstar-core/src/btree/node.rs:172-182 | all of this for every run from one new leaf, whose entries are those of the replay from nothing |
| `LeafRow.StepMeaning` | rust/northstar-core/src/btree/node.rs:185-260 | one successful operation changes the row's entries exactly as it means |
| `LeafRow.StepKeepsLinks` | rust/northstar-core/src/btree/merge.rs:126-138 | inserts, deletes, borrows and both merges keep the row one doubly linked list |
| `LeafRow.SplitBreaksLinks` | rust/northstar-core/src/btree/insert.rs:147-149 | a successful split never leaves the row linked |
| `RowAccepted.SucceedsIff` | rust/northstar-core/src/btree/node.rs:185-260 | on a row of valid leaves each of the seven operations succeeds if and only if a stated condition on entry counts, bytes and free-space figures holds |
| `RowAccepted.MeansIff` | rust/northstar-core/src/btree/node.rs:185-193 | an operation changes the row as it means if and only if it is not a put that its leaf shows too little room for, unless that entry was stored already |
| `RowAccepted.RunMeansAll` | rust/northstar-core/src/btree/node.rs:185-260 | over every run whose puts find room, the row stores what all the operations one after the other make of one sorted sequence |
| `SearchTree.ChildIndexCounts` | rust/northstar-core/src/btree/node.rs:97-109 | `find_child` chooses the child numbered by how many separators are at most the key |
| `BTree.FindChild` | rust/northstar-core/src/btree/node.rs:97-109 | the binary search over the separators finds that child |
| `SearchTree.Descent` | rust/northstar-core/src/btree/tree.rs:520-536 | on a search tree of any height the descent ends at a leaf with only smaller keys before and only larger keys after |
| `SearchTree.SearchIsLinear` | rust/northstar-core/src/btree/tree.rs:83-133 | descending and searching one leaf finds exactly what a linear search over all leaves finds |
| `SearchTree.TreeSorted` | rust/northstar-core/src/btree/node.rs:270-298 | a search tree stores its entries in strictly ascending key order |
| `TreePut.PutKeepsPlaced` | rust/northstar-core/src/btree/tree.rs:136-184 | every put, successful or not, leaves a tree of distinct pages with valid leaves below the next free page |
| `TreePut.SplitFound` | rust/northstar-core/src/btree/tree.rs:452-517 | what a search finds after any split and root growth: the halves' entries from the separator on or in the split leaf, the old answer elsewhere |
| `TreePut.PlainPutIsUpdate` | rust/northstar-core/src/btree/tree.rs:136-184 | a successful put that does not split changes the answer for its key to its entry and for no other key |
| `PutAsUpdate.PutIsUpdateIff` | rust/northstar-core/src/btree/tree.rs:136-184 | a successful put on any search tree is a map update if and only if it does not split, or splits the last non-empty leaf and does not drop its entry |
| `PutAsUpdate.LastSplitAt` | rust/northstar-core/src/btree/tree.rs:452-517 | a put that splits the last non-empty leaf answers every key as a map update does, except the put key itself when it was dropped |
| `PutAsUpdate.InnerSplitLoses` | rust/northstar-core/src/btree/tree.rs:479-481 | a split of any other leaf makes the first entry after that leaf unreachable |
| `PutAsUpdate.FailedPutChangesNothing` | rust/northstar-core/src/btree/tree.rs:136-184 | a refused put leaves the root and every existing page as they were |
| `PutRuns.LosslessPutUpserts` | rust/northstar-core/src/btree/tree.rs:136-184 | a lossless put keeps the search tree and upserts into the stored sequence |
| `PutRuns.LosslessRunRefines` | rust/northstar-core/src/btree/tree.rs:136-184 | over every run of lossless puts the tree is a search tree and a search finds for every key the last entry put |
| `PutRuns.AscendingRun` | rust/northstar-core/src/btree/tree.rs:136-184 | for strictly ascending keys and comparable entry sizes up to 3265 bytes, no put fails or loses anything: the left-spine tree stays a search tree and stores exactly what was put |
| `PutRuns.AscendingRunFinds` | rust/northstar-core/src/btree/tree.rs:61-75 | from an empty tree such a run ends with every search finding exactly the entry put, and nothing for other keys |
| `PutRuns.SingleSizeComparable` | rust/northstar-core/src/btree/insert.rs:21-48 | any one entry size from 11 to 3265 bytes is covered by the ascending runs |
| `PutRuns.ShrinkingUpdateLosesNext` | rust/northstar-core/src/btree/node.rs:201-206 | put, shrinking update and put of a larger key all report success and the last entry is not found |
| `AnyOrderRuns.PutEffect` | rust/northstar-core/src/btree/tree.rs:136-184 | on every reachable tree, whatever the put does: a search finds nothing for exactly the keys behind the put key on other leaves when it splits, the entry for its key when it is stored, and what it found before for all other keys |
| `AnyOrderRuns.PutHomed` | rust/northstar-core/src/btree/tree.rs:452-517 | every put keeps every entry of a leaf in use where a search looks for it |
| `AnyOrderRuns.RunEffect` | rust/northstar-core/src/btree/tree.rs:136-184 | over every run of puts in any order, successful or not, a search finds for every key what those losses and stores leave |
| `AnyOrderRuns.FoundIsLastOrNothing` | rust/northstar-core/src/btree/tree.rs:136-184 | from an empty tree, after every run of puts, a search finds nothing or the last entry stored for the key, never an older one |
| `AnyOrderRuns.RoutingConvex` | rust/northstar-core/src/btree/node.rs:97-109 | two keys that lead to one leaf take every key between them there |
| `PutAccepted.PutRefusedIff` | rust/northstar-core/src/btree/tree.rs:136-184 | a put is refused if and only if the leaf of its key shows too little room and has more than 3264 bytes free, or is empty, or the key belongs to a first half that has no room either |
| `PutAccepted.RefusedTakesPage` | rust/northstar-core/src/btree/insert.rs:52-72 | a refused put has used up a page exactly when it tried the split |
| `PutAccepted.PutGrowsIff` | rust/northstar-core/src/btree/tree.rs:452-517 | a put makes the tree one level higher if and only if it splits its leaf, by a condition on that leaf and the entry; the empty root leaf never splits |
| `PutAccepted.AnyRunAccepted` | rust/northstar-core/src/btree/tree.rs:136-184 | from an empty tree, over every run of puts in any order and with any updates, no put is refused when the entry sizes are comparable |
| `PutAccepted.PutValueRefusedIff` | rust/northstar-core/src/btree/tree.rs:136-184 | a put of a value is refused if and only if the value exceeds 16777215 bytes or the leaf of its key has no room for what is stored of it |
| `PutAccepted.AnyValueRunAccepted` | rust/northstar-core/src/btree/tree.rs:136-184 | no put of values up to 16777215 bytes is refused in any run whose stored sizes are comparable |
| `TreeHeight.HeightIsLinear` | rust/northstar-core/src/btree/tree.rs:490-517 | after every run of puts on an empty tree the height and the number of internal nodes are the number of leaves less one and so is the depth of the first leaf; all leaves are equally deep if and only if there are at most two |
| `TreeHeight.RunFormed` | rust/northstar-core/src/btree/tree.rs:490-517 | over every run each node's level is the depth of its first leaf, left children name their parent and right children never do |
| `TreeHeight.FirstLeafPath` | rust/northstar-core/src/btree/tree.rs:83-133 | a get that ends at the first leaf reads as many pages as the tree has leaves |
| `BTree.BTree.constructor` | rust/northstar-core/src/btree/tree.rs:61-75 | a new tree is an empty search tree of one leaf |
| `BTree.BTree.Get` | rust/northstar-core/src/btree/tree.rs:83-133 | the loop terminates and returns the found entry's value, following its overflow chain, if its LSN is at most the snapshot; on a search tree that is the answer of a linear search; and it returns the set of pages read |
| `BTree.PathDecides` | rust/northstar-core/src/btree/tree.rs:83-133 | the answer depends on no page outside the set of pages read |
| `BTree.BTree.Put` | rust/northstar-core/src/btree/tree.rs:136-184 | the new pages, overflow pages, root and counters are those of the put specification, for values of any length; too long a value changes nothing |
| `BTree.BTree.GrowTree` | rust/northstar-core/src/btree/tree.rs:490-517 | the old root loses its root flag and gets the new one as parent; the new root holds one separator and two children |
| `BTree.BTree.ScanChain` | rust/northstar-core/src/btree/tree.rs:353-427 | on any tree the scan returns the wanted entries of the leaves that the links thread from the start leaf on |
| `BTree.BTree.Scan` | rust/northstar-core/src/btree/tree.rs:353-427 | on a search tree whose links thread its leaves, exactly the entries with start <= key < end and LSN <= snapshot, in strictly ascending order |
| `BTree.ScanAgreesWithGet` | rust/northstar-core/src/btree/tree.rs:395-417 | the entries a scan selects hold a key if and only if it is at least the start, below the end and a get at that snapshot does not miss it, and then the entry is the one the get finds |
| `BTree.BTree.ScanUnlinked` | rust/northstar-core/src/btree/tree.rs:353-427 | on a tree without links, as every run of puts leaves it, the scan returns the wanted entries of its start leaf; on a search tree that is complete if and only if no entry on a later leaf is wanted |
| `BTree.BTree.Collect` | rust/northstar-core/src/btree/tree.rs:382-424 | following the links gathers the wanted entries of all the leaves they thread, later leaves included, and the pages read are those leaves |
| `Scans.ScanLeaf` | rust/northstar-core/src/btree/tree.rs:396-418 | stopping at the end key within a leaf loses nothing |
| `Scans.Iterate` | rust/northstar-core/src/btree/scan.rs:92-105 | what the iterator yields of any list of items |
| `Scans.YieldsAll` | rust/northstar-core/src/btree/scan.rs:92-105 | of items already selected the iterator's second filter drops nothing |
| `ScanAfterPut.RunKeepsUnlinked` | rust/northstar-core/src/btree/insert.rs:147-149 | over every run of puts, successful or not, no leaf has a successor if none had |
| `ScanAfterPut.ChainedAfterRunIff` | rust/northstar-core/src/btree/insert.rs:147-149 | after every run of puts from an empty tree the links thread the leaves if and only if there is one leaf |
| `ScanAfterPut.ScanAfterRunIff` | rust/northstar-core/src/btree/tree.rs:353-427 | after every run of lossless puts from an empty tree a scan returns what it should if and only if nothing on the leaves behind its start leaf is wanted |
| `ScanAfterPut.FullScanIff` | rust/northstar-core/src/btree/tree.rs:353-427 | after every ascending run a full scan is complete if and only if the tree has one leaf |
| `ScanAfterPut.OldChainKept` | rust/northstar-core/src/btree/insert.rs:147-149 | after a split the links thread the old leaves only |
| `ScanAfterPut.ScanStopsBeforeNewLeaf` | rust/northstar-core/src/btree/tree.rs:353-427 | on any tree whose links thread its leaves, a lossless put that splits ends that, and a scan without start key is then complete if and only if nothing on the new leaf, which is not empty, is wanted |
| `Overflow.ChainReadsBack` | rust/northstar-core/src/pager/pager.rs:482-557 | a value written to consecutive overflow pages is read back whole |
| `Overflow.PreparedResolves` | rust/northstar-core/src/btree/insert.rs:257-296 | a value of any length up to the maximum is stored and resolved as itself, unless it is a ten-byte value that looks like a reference: that one is resolved as the chain it happens to name |
| `Overflow.PreparedKeeps` | rust/northstar-core/src/btree/insert.rs:257-284 | storing a value leaves every value stored before as it was |
| `Overflow.KeptInlineIff` | rust/northstar-core/src/btree/insert.rs:257-284 | a value stays in its leaf exactly up to 2000 bytes; a longer one leaves a reference to its first page and takes pages of 16332 bytes, all full but the last |
| `Overflow.ChunkAt` | rust/northstar-core/src/pager/pager.rs:482-520 | page i of a chain holds the bytes from 16332 i on and the number of the next page, or 0 on the last |
| `Overflow.AllocateChain` | rust/northstar-core/src/pager/pager.rs:482-520 | the writing loop links consecutive pages into the chain of the value |
| `Overflow.FollowChain` | rust/northstar-core/src/pager/pager.rs:523-557 | the reading loop, with its guards against cycles and overlong chains, terminates on any pages and computes the chain's value |
| `ValueRuns.ValuesReadBack` | rust/northstar-core/src/btree/tree.rs:83-184 | over every run of accepted lossless puts, with values of any length up to the maximum, a read returns the last value put if its LSN is not later than the snapshot, and nothing otherwise |
| `ValueRuns.AscendingValuesReadBack` | rust/northstar-core/src/btree/tree.rs:83-184 | from an empty tree this holds for every run with strictly ascending keys and comparable kept sizes |
| `PageCodec.HeaderRoundTrip` | rust/northstar-core/src/btree/header.rs:86-115 | a header whose fields fit their widths is read back from its 60 bytes |
| `PageCodec.LeafRoundTripIff` | rust/northstar-core/src/btree/node.rs:382-580 | a writable leaf is read back unchanged if and only if its keys have at most 255 bytes and its entries end within the 16308-byte area or repeat the links' own bytes beyond it |
| `PageCodec.LeafRoundTrip` | rust/northstar-core/src/btree/node.rs:382-580 | a ready leaf is read back unchanged, also with its checksum filled in, and differs from the original in that field only |
| `PageCodec.InternalRoundTrip` | rust/northstar-core/src/btree/node.rs:382-580 | an internal node with one more child than separators that fits the page is read back unchanged |
| `PageCodec.LeafToBytes` | rust/northstar-core/src/btree/node.rs:382-467 | the writing loop over a fixed buffer produces the page image with its checksum |
| `PageCodec.FromBytes` | rust/northstar-core/src/btree/node.rs:470-580 | the reading loops over any byte string compute the parse function, errors included |
| `PageLayout.WrittenChecksum` | rust/northstar-core/src/btree/node.rs:417-418 | bytes 28 to 31 of a written page, leaf or internal, are the checksum of the page with its old checksum field, and every other byte is that of the node's image |
| `PageLayout.HeaderLayout` | rust/northstar-core/src/btree/header.rs:86-115 | every header field stands at its packed offset |
| `PageLayout.HeaderReads` | rust/northstar-core/src/btree/node.rs:470-480 | a header is read from the first 60 bytes, every field from its offset, and not from fewer |
| `PageLayout.RejectedIff` | rust/northstar-core/src/btree/header.rs:139-179 | a page is rejected for its length exactly below 60 bytes and for its header exactly when magic bytes, type, root flag, parent, level or reserved field are wrong |
| `PageLayout.EntryLayout` | rust/northstar-core/src/btree/node.rs:436-452 | an entry is its key length in one byte, key, value length in two, value and LSN in eight |
| `PageLayout.LeafLayout` | rust/northstar-core/src/btree/node.rs:422-458 | every entry of a leaf stands behind those before it from byte 60 on, and the links in the last 16 bytes |
| `PageLayout.LowByteFirst` | rust/northstar-core/src/btree/node.rs:446-458 | numbers are written as digits to the base 256, lowest first |
| `PageRuns.RunSurvivesPages` | rust/northstar-core/src/btree/node.rs:382-580 | after every such row run each leaf is read back from its page exactly as written |
| `PageRuns.RunFromNewLeafSurvives` | rust/northstar-core/src/btree/node.rs:382-580 | the same for every run from one new leaf |
| `TreePages.PutRunSurvivesPages` | rust/northstar-core/src/btree/node.rs:382-580 | after every run of puts whose page numbers and height fit their fields, every page of the tree, sealed with its checksum, is read back from its bytes as the node that was written |
| `TreePages.RunFromCreateSurvives` | rust/northstar-core/src/btree/tree.rs:61-75 | the same for every run from an empty tree |
| `DiskRuns.PagesFaithful` | rust/northstar-core/src/btree/node.rs:382-580 | every node that puts leave is read back from the bytes of its sealed page as it was but for the checksum |
| `DiskRuns.DiskRunSimulates` | rust/northstar-core/src/btree/tree.rs:136-184 | over every run of puts, as long as page numbers and height fit their fields, that parse pages from bytes and write them back sealed, the parsed tree is the tree of the run on nodes but for checksums, of the same shape, and every search finds the same |
| `DiskRuns.AscendingDiskRunFinds` | rust/northstar-core/src/btree/tree.rs:136-184 | from an empty tree, ascending runs on bytes lose nothing |
| `DeltaLayer.DeltaLayer.Put` | rust/northstar-core/src/btree/delta.rs:151-211 | accepted exactly with a key of at most 255 bytes, a value of at most 16777215, fewer than 100000 keys held and bytes that fit; then the mutation is recorded, else nothing changes; the subtraction never underflows |
| `DeltaLayer.DeltaLayer.Delete` | rust/northstar-core/src/btree/delta.rs:214-252 | accepted exactly with a key of at most 255 bytes and fewer than 100000 keys held, whether or not the key is; no byte limit applies |
| `DeltaLayer.RunAccounts` | rust/northstar-core/src/btree/delta.rs:151-252 | over every run: size is the exact sum of entry sizes, operation count the number of keys and at most 100000, puts hold at most 16777216 bytes, the total at most 16777216 + 287 * 100000 |
| `DeltaLayer.OverlayIsReplay` | rust/northstar-core/src/btree/delta.rs:151-252 | overlaying the compacted write-set on any base gives what replaying the accepted operations in time order gives |
| `DeltaLayer.AnyOrderIsReplay` | rust/northstar-core/src/btree/delta.rs:454-456 | applying the compacted mutations in any order gives that same store |
| `DeltaLayer.AcceptedIff` | rust/northstar-core/src/btree/delta.rs:151-252 | on every accounted write-set an operation is accepted if and only if its lengths, the number of keys held and, for a put, the sum of the bytes held allow it |
| `DeltaLayer.RunAccepted` | rust/northstar-core/src/btree/delta.rs:151-252 | a run that stays within the limits as a whole has every operation accepted |
| `DeltaLayer.CommitIsFold` | rust/northstar-core/src/btree/delta.rs:151-252 | for every transaction of at most 100000 operations within the length limits and 16777216 bytes together, applying the write-set in any order of its keys leaves the store as applying every operation in turn |
| `DeltaCodec.DeltaRoundTrip` | rust/northstar-core/src/btree/delta.rs:324-444 | every accounted write-set is read back from its bytes with LSNs reset and the same size and operation count |
| `DeltaCodec.SerializeIsCanonical` | rust/northstar-core/src/btree/delta.rs:324-354 | the bytes depend only on the key-to-mutation contents, not on hash order, insertion order or LSNs |
| `DeltaCodec.SerializedInKeyOrder` | rust/northstar-core/src/btree/delta.rs:324-354 | the bytes are the count in four bytes and the records in ascending order of their keys |
| `DeltaCodec.RecordLayout` | rust/northstar-core/src/btree/delta.rs:324-354 | a record is type 1 or 2, key length in one byte, key, value length in four, value |
| `DeltaCodec.StrictPrefixRejected` | rust/northstar-core/src/btree/delta.rs:357-444 | every strict prefix of the bytes is rejected |
| `DeltaCodec.SerializeLayer` | rust/northstar-core/src/btree/delta.rs:324-354 | the writing loop computes the canonical bytes |
| `DeltaCodec.DeserializeLayer` | rust/northstar-core/src/btree/delta.rs:357-444 | the reading loop computes the reading function on any bytes |
| `RecoveryOrder.LogOrderIrrelevantIff` | rust/northstar-core/src/btree/recovery.rs:296-375 | every reordering of the log recovers the same table and counters if and only if, for every key, the valid commits of the greatest transaction id that write it agree on their last write to it |
| `RecoveryOrder.DisagreementShows` | rust/northstar-core/src/btree/recovery.rs:314-315 | otherwise some reordering recovers something else |
| `RecoveryOrder.LogOrderIrrelevant` | rust/northstar-core/src/btree/recovery.rs:296-330 | with distinct transaction ids among valid commits, any reordering of the log recovers the same table and counters |
| `Recovery.ReplayIsLastWrite` | rust/northstar-core/src/btree/recovery.rs:349-375 | replay leaves for every key exactly its last write |
| `Recovery.ReplayResumes` | rust/northstar-core/src/btree/recovery.rs:349-375 | a replay cut off after any number of mutations is completed by replaying from the start |
| `Recovery.RecoverIdempotent` | rust/northstar-core/src/btree/recovery.rs:184-220 | recovering again from the same log changes nothing |
| `Recovery.RecoverInStages` | rust/northstar-core/src/btree/recovery.rs:296-375 | recovering a log and then a later one is recovering both as one |
| `Recovery.CountersAddUp` | rust/northstar-core/src/btree/recovery.rs:296-375 | scanned = valid + skipped, applied = puts + deletes = mutations of the valid commits |
| `Recovery.RecoverFailsIff` | rust/northstar-core/src/btree/recovery.rs:317-323 | recovery fails exactly on a non-empty log in which every checksum is wrong |
| `Recovery.RecoveryContext.FilterCommittedTransactions` | rust/northstar-core/src/btree/recovery.rs:296-330 | the filtering loops return the sorted valid commits and count valid and skipped ones |
| `Recovery.RecoveryContext.ReplayMutations` | rust/northstar-core/src/btree/recovery.rs:349-375 | the replay loops apply all writes in order and count each |
| `Recovery.RecoveryContext.RecoverTree` | rust/northstar-core/src/btree/recovery.rs:184-220 | the whole recovery ends with the specified table and statistics, or the error |
| `RecoveryMeaning.RecoversLastMutation` | rust/northstar-core/src/btree/recovery.rs:349-375 | stated on the log alone: of the records with a right checksum that touch a key, the one with the greatest transaction id, and of equal ids the latest in the log, decides; its last put of the key is recovered with its value and that id, its last delete leaves nothing |
| `RecoveryMeaning.RecoveryKeepsUntouched` | rust/northstar-core/src/btree/recovery.rs:349-375 | a key that no record with a right checksum touches keeps what the tree had |
| `RecoveryMeaning.TouchedHasLast` | rust/northstar-core/src/btree/recovery.rs:314-315 | every touched key has such a record with a last mutation, so the two cases are exhaustive |
| `RecoveryMeaning.ReplayLeavesAt` | rust/northstar-core/src/btree/recovery.rs:349-375 | replaying any list of commits leaves for a key what the last mutation of the last commit that touches it says |
| `RecoveryMeaning.SortedAround` | rust/northstar-core/src/btree/recovery.rs:314-315 | sorting is stable: behind a record come only greater ids and records of its own id that followed it in the log |
| `RecoveryMeaning.CountersCount` | rust/northstar-core/src/btree/recovery.rs:296-375 | valid commits, puts and deletes are counted by the records with a right checksum and the mutations of each kind in them |
| `VersionStore.RunKeepsNewest` | rust/northstar-core/src/btree/version.rs:60-108 | over every run with non-decreasing LSNs a chain is the newest part of its key's full history: exactly the versions with fewer than ten newer ones and no later reclaim above their LSN |
| `VersionStore.ResolveAfterRun` | rust/northstar-core/src/btree/version.rs:133-174 | a read returns the full-history answer if that version is retained, and otherwise nothing: never a wrong version |
| `VersionStore.AnswerExists` | rust/northstar-core/src/btree/version.rs:71-78 | a history with a visible version has an answer |
| `VersionReads.ReadsRightAfterRunIff` | rust/northstar-core/src/btree/version.rs:60-174 | after every run of adds, deletes, reclaims and removals, with LSNs in any order, no snapshot reads a wrong version if and only if every kept version with a smaller LSN than some version ever written is preceded in the chain by one of that greater LSN |
| `VersionReads.RunKeepsFlags` | rust/northstar-core/src/btree/version.rs:60-108 | over every such run a chain is a sublist of the history from which nothing newer with as great an LSN as a kept version is missing |
| `VersionReads.NoReclaimReadsRightIff` | rust/northstar-core/src/btree/version.rs:60-78 | without reclaiming the condition is one on the history: a version among the newest ten with a smaller LSN than any other comes after one of that greater LSN |
| `VersionReads.InOrderReadsRight` | rust/northstar-core/src/btree/version.rs:60-174 | non-decreasing LSNs meet the condition, with any reclaiming |
| `VersionStore.OutOfOrderReadsStale` | rust/northstar-core/src/btree/version.rs:60-78 | a run that fails it: of LSNs 20 and then 10 a snapshot at 30 reads the older |
| `VersionStore.VersionStore.AddVersion` | rust/northstar-core/src/btree/version.rs:133-138 | adds in front and keeps ten |
| `VersionStore.VersionStore.ResolveAt` | rust/northstar-core/src/btree/version.rs:71-78 | the loop returns the first visible version of the chain |
| `VersionStore.VersionStore.ReclaimAll` | rust/northstar-core/src/btree/version.rs:168-174 | reclaims in every chain, in any order, and returns how many versions went |
| `LruState.EvictExact` | rust/northstar-core/src/cache/shard.rs:248-291 | eviction keeps both counters exact, and when it reports success it freed enough despite the attempt cap |
| `LruState.EvictIsShortestTail` | rust/northstar-core/src/cache/shard.rs:248-308 | eviction succeeds exactly when the tracked unpinned entries suffice; it evicts the unpinned keys of the shortest sufficient tail of the recency list, and on failure all of them |
| `LruRuns.RunKept` | rust/northstar-core/src/cache/shard.rs:65-231 | over every run: exact size and count within their limits, a duplicate-free recency list of present keys in order of last insert or hit, present values as last put, insertions = evictions + cleared + entries |
| `LruRuns.PutEvictsOldest` | rust/northstar-core/src/cache/shard.rs:294-308 | a put evicts only unpinned tracked entries, each used less recently than every tracked unpinned entry it leaves |
| `LruRuns.PinnedStays` | rust/northstar-core/src/cache/shard.rs:294-308 | only invalidating its key or clearing takes a pinned entry out; every operation but pinning and unpinning it keeps its pins |
| `LruPins.RunCountsPins` | rust/northstar-core/src/cache/types.rs:60-69 | over every run the pin count of every entry is the pins minus the unpins since its insertion, modulo 2^64, so as many unpins as pins leave it unpinned |
| `LruPins.HeldStays` | rust/northstar-core/src/cache/shard.rs:169-193 | over every run without its invalidation or a clear, an entry that at every moment was pinned more often than unpinned is present with exactly the pins left on it |
| `LruRuns.PutAcceptedIff` | rust/northstar-core/src/cache/shard.rs:92-143 | when exactly a put is accepted |
| `LruRuns.RefusedWithoutPins` | rust/northstar-core/src/cache/shard.rs:297-303 | pin, refused put, unpin: the shard then refuses although nothing is pinned |
| `LruRuns.RunsKeptIff` | rust/northstar-core/src/cache/shard.rs:251-253 | all of this holds of every run from an empty shard if and only if its limit is at least one entry |
| `LruSizes.CountsInserted` | rust/northstar-core/src/cache/shard.rs:104-116 | over every run the size counter is the sum of the sizes the present keys were inserted with, since updates keep them |
| `LruSizes.SteadyRun` | rust/northstar-core/src/cache/shard.rs:104-116 | it is also the sum of the sizes last put when no accepted update changed a size |
| `LruSizes.CounterStepIff` | rust/northstar-core/src/cache/shard.rs:104-116 | from such a state a step keeps that if and only if it is not an accepted update to another size, and otherwise the counter is off by the difference |
| `LruShard.CacheShard.EvictLru` | rust/northstar-core/src/cache/shard.rs:294-308 | pops to the last unpinned key and returns it, or empties the list |
| `LruShard.CacheShard.EvictFor` | rust/northstar-core/src/cache/shard.rs:248-291 | the bounded loop computes the specified eviction |
| `LruShard.CacheShard.PutValue` | rust/northstar-core/src/cache/shard.rs:92-143 | the shard after a put is the specified one and within its limits |
| `LruShard.CacheShard.GetValue` | rust/northstar-core/src/cache/shard.rs:65-86 | returns the value and moves the key to the front |
| `LruShard.CacheShard.InvalidateKey` | rust/northstar-core/src/cache/shard.rs:146-167 | removes the entry from map, counters and list |
| `LruShard.CacheShard.ClearAll` | rust/northstar-core/src/cache/shard.rs:196-231 | empties the shard and reports what it held |
| `ShardedCache.RunTruthful` | rust/northstar-core/src/cache/mod.rs:73-97 | for any hash, over every run, a get returns nothing or the value of the last accepted put since the key was last invalidated or cleared |
| `ShardedCache.LossExplained` | rust/northstar-core/src/cache/mod.rs:73-97 | a key stops being cached only by invalidating it, by clearing, or by a put of a new key to its shard that evicts it while tracked and unpinned |
| `ShardedCache.TotalsAddUp` | rust/northstar-core/src/cache/mod.rs:127-164 | the shards' entry counts add up to the number of keys held, within the limits times the number of shards |
| `CacheObject.Cache.GetValue` | rust/northstar-core/src/cache/mod.rs:73-79 | asks the shard object of the key |
| `CacheObject.Cache.PutValue` | rust/northstar-core/src/cache/mod.rs:82-88 | puts into the shard object of the key and reports whether it was accepted |
| `CacheObject.Cache.ClearAll` | rust/northstar-core/src/cache/mod.rs:112-124 | clears every shard and adds up what they held |
| `NodeVersions.RunSound` | rust/northstar-core/src/cache/node.rs:95-141 | over every run the version index covers every cached version |
| `NodeVersions.InvalidateLeavesNone` | rust/northstar-core/src/cache/node.rs:127-141 | invalidating a page removes all its versions, in whatever order, and nothing else |
| `NodeVersions.InvalidatedUntilPut` | rust/northstar-core/src/cache/node.rs:95-141 | once a page is invalidated no LSN of it is returned until the next put to it |
| `NodeClones.InvalidateAbsentIff` | rust/northstar-core/src/cache/node.rs:127-141 | invalidating a page removes all its versions if and only if the index covers them, whoever else uses the index |
| `NodeClones.SparedStaysCovered` | rust/northstar-core/src/cache/node.rs:210-219 | over every run of a cache and its clone in which the clone neither invalidates the page nor clears, the page stays covered |
| `NodeClones.SparedInvalidates` | rust/northstar-core/src/cache/node.rs:210-219 | so invalidating it then removes every version |
| `NodeClones.TheirInvalidationIff` | rust/northstar-core/src/cache/node.rs:210-219 | after an invalidation through the clone, invalidating here leaves nothing if and only if nothing was cached here |
| `NodeClones.CloneLosesInvalidation` | rust/northstar-core/src/cache/node.rs:210-219 | put here, invalidate through the clone, invalidate here: the node is still returned, for every hash, page, LSN and node |
| `NodeCache.NodeCache.PutVersion` | rust/northstar-core/src/cache/node.rs:104-118 | an accepted node is readable and indexed |
| `NodeCache.NodeCache.Clone` | rust/northstar-core/src/cache/node.rs:210-219 | a clone has no entries and shares the index |
| `NodeCache.NodeCache.InvalidateVersions` | rust/northstar-core/src/cache/node.rs:127-141 | the loop removes every indexed version and returns their number; nothing is left if and only if the index covered the page |
| `Prefetch.EnqueueRefines` | rust/northstar-core/src/cache/prefetch.rs:139-170 | priority insertion and displacement on the one list are joining one of three FIFO queues and dropping the oldest low request |
| `Prefetch.DequeueRefines` | rust/northstar-core/src/cache/prefetch.rs:173-183 | the front is the front of the first non-empty queue |
| `Prefetch.RunRefines` | rust/northstar-core/src/cache/prefetch.rs:139-191 | over every run the list refines the three queues, each priority is first in first out, and only low requests are displaced |
| `Prefetch.TotalsAddUp` | rust/northstar-core/src/cache/prefetch.rs:139-191 | length within the maximum and equal to the recorded size; total = queued + dequeued + dropped + cleared |
| `Prefetch.PrefetchQueue.Push` | rust/northstar-core/src/cache/prefetch.rs:139-170 | the queue object after an enqueue is the specified one |
| `Windows.AlignedTightIff` | rust/northstar-core/src/analytics/window.rs:30-33 | the first window starts at or after the start and less than two steps after it; less than one step after it if and only if start > offset - step or step divides start - offset + step - 1, and otherwise a whole window is skipped |
| `Windows.AlignedOnGrid` | rust/northstar-core/src/analytics/window.rs:30-33 | the first window starts on the grid of the steps through the offset |
| `Windows.AlignedIsLeast` | rust/northstar-core/src/analytics/window.rs:30-33 | it starts at the least grid point at or after the start under that condition, and one step after that point otherwise |
| `Windows.TumblingGenerated` | rust/northstar-core/src/analytics/window.rs:27-46 | every tumbling window starts on the grid, a size after the one before, is a size long or cut off at the end, and the windows reach the end |
| `Windows.SlidingGenerated` | rust/northstar-core/src/analytics/window.rs:49-70 | every sliding window starts on the grid, a slide after the one before, is a size long or cut off at the end, and the starts reach the end |
| `Windows.HoldingIsMultiplicity` | rust/northstar-core/src/analytics/window.rs:49-70 | how many windows hold a time, for any size and slide, dividing or not |
| `Windows.TumblingPartition` | rust/northstar-core/src/analytics/window.rs:27-46 | every time from the first start to the end lies in exactly one tumbling window, every other in none |
| `Windows.SlidingMultiplicity` | rust/northstar-core/src/analytics/window.rs:49-70 | when the slide divides the size, every time from size - slide past the first start on lies in exactly size / slide windows, earlier ones in fewer |
| `Windows.DoubleCount` | rust/northstar-core/src/analytics/query.rs:45-51 | counting points by windows or windows by points gives the same sum |
| `Windows.GenerateTumblingWindows` | rust/northstar-core/src/analytics/window.rs:27-46 | the loop generates exactly these windows, all on the grid |
| `Windows.GenerateSlidingWindows` | rust/northstar-core/src/analytics/window.rs:49-70 | the loop generates exactly these windows, all on the grid |
| `Windows.ExecuteCountQuery` | rust/northstar-core/src/analytics/query.rs:12-98 | the aggregates are the windows that hold matching points, in order, each with the number of matching points of the data in it; they sum to the matching points from the first window on, windows without points are counted, and an empty range is an error |
| `MergeItems.MergeSortedItems` | rust/northstar-core/src/btree/scan.rs:231-272 | terminates on any number of lists with a permutation of all items; sorted inputs give a sorted result with equal keys in input order |
| `MergeItems.FindSmallest` | rust/northstar-core/src/btree/scan.rs:247-259 | finds the first list with the smallest next key |
| `MergeItems.StableSortUnique` | rust/northstar-core/src/btree/scan.rs:231-272 | only one list is sorted and agrees with the inputs key by key |

## Left out

- `pager` (beyond overflow chains), `wal`, `txn`, `db`, `snap`: the pager is a heap of pages with fresh allocation, the log a sequence of records; I/O errors are not modelled.
- The 16-bit tree height wraps or panics after 65535 splits in the code; the model's height is unbounded, and the theorems about page bytes are for runs that end with a height below 65536 and 64-bit page numbers.
- Freed overflow chains: `free_overflow_chain` and page reuse are not part of this model; pages are always fresh.
- BTree.BTree.Scan: the case of a well-linked leaf chain; `put` does not make one of several leaves, and what a scan does without links is `BTree.BTree.ScanUnlinked`. Backward scans and `ScanState` are left out.
- Tree-level delete, `handle_leaf_underflow`, `propagate_merge`, `insert_into_internal`, `split_internal_node`, internal borrows and merges: `put` never reaches the internal insert and split, the others rely on placeholders; leaf deletes, borrows and merges are covered on rows of leaves.
- PageCodec.LeafToBytes: the internal-node branch of `to_bytes` is modelled by its image function only, without a writing loop.
- PageCodec.FromBytes: the kinds of parse error are fewer than the code's, and a slice that would panic counts as an error.
- Header validation is modelled as far as parsing uses it; the comparison of the node id with the page id belongs to the pager.
- DeltaCodec.DeserializeLayer: incomplete data and invalid records are one rejection.
- Recovery.RecoveryContext.RecoverTree: the tree is taken as a map whose puts and deletes do not fail; WAL scanning with resynchronisation, tree verification, durations and the root page id are left out.
- CRC32C (section 12.1 of RFC 3720) is a parameter of every theorem that mentions it.
- LRU is the only eviction policy modelled; LFU, ARC, FIFO and LIFO, dirty flags, access counts, hit and pin statistics and TTL are left out. The node cache, which defaults to ARC, is modelled over LRU shards.
- LruShard.CacheShard.PutValue: requires a limit of at least one entry; what happens with zero is `LruRuns.RunsKeptIff`.
- CacheObject.Cache.PutValue: the same requirement, through `Ready`; `CacheConfig::validate` demands 1000.
- Each cache operation is one atomic step: interleavings between its lock sections are not modelled, and machine-word overflow of sizes and counters (except pin counts) is not either.
- The size estimate of a node is a parameter of the node cache's put.
- Windows.ExecuteCountQuery: one Count function without fill strategy or limit; tag filters are a parameter. Floating-point aggregates, session and calendar windows, and 64-bit overflow of timestamps are left out.
- Windows.GenerateTumblingWindows: takes configurations its constructor accepts.
- `SequentialScanDetector`, prefetch hints and adaptive distances, the query cache, usage analytics, the CLI, benchmarks and cloud stubs: heuristics and user interface beside the storage kernel.
