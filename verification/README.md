# Verified model of BasicBTFS

BasicBTFS keeps every directory as a B-tree on disk, keyed by a hash of the file name, beside a
chain of blocks with the names packed into them. A second tree in memory mirrors the first, one
bitmap hands out all blocks, and a defragmenter moves live blocks of four kinds about while it
repairs every reference to them. This project models that code in Dafny and proves what it keeps.

How the model is laid out:

- `Entries`, `BTree`, `BTreeDelete`, `BTreeRuns`: trees as values, the sorted sequence of entries a
  tree stands for, and every tree operation specified by its effect on that sequence.
- `Bitmap`, `AllocRuns`: the allocator, and whole runs of it.
- `Room`: insertion when blocks run out, on values.
- `Blocks`, `SlotLoops`, `StaleSlots`, `DiskTree`, `DiskDelete`, `DiskRoot`, `LookupSlots`: the tree on
  blocks with fixed slot arrays. A volume is a class whose field `blocks` maps block numbers to typed
  blocks; each routine is proved to carry out the operation on values, on exactly the blocks it should.
- `Parents`, `DeleteLayout`, `ParentLinks`: where insertions and deletions put nodes, and what becomes of
  the parent fields.
- `System`, `Relocate`, `DefragStep`, `Defrag`, `DefragNode`, `DefragTree`, `DefragClash`, `DefragWhole`: the
  graph of all blocks, moving as a consistent renumbering of it, the defragmenter's walk over a tree, and
  exactly when that walk goes wrong.
- `DefragEvict`, `DefragTable`, `DefragFile`, `DefragFileWhole`: clearing the way while something else is
  between two places, and the defragmenter's work on a file.
- `DefragName`, `Wording`, `NamePhases`, `NamePull`, `NameFill`, `DefragDirs`, `DefragNames`: its work on a name list.
- `DefragJobs`, `DefragObjects`, `DefragDirectories`, `DefragRun`: the run over the whole volume.
- `NameRecords`, `NameBlocks`, `NameCompact`, `NamePlaces`, `NameList`: byte-packed name records, one
  block, the squeezing of a block, and the chain of blocks.
- `Directory`, `DirectoryOps`, `DirectoryCache`: directories as values, on blocks, and with a cached tree.
- `Listing`: what a directory shows, as a finite map, and runs of requests on that map.
- `NodeCache`, `CachedOps`: the cached nodes with their list and their counter, and whole runs of
  operations on volume, name blocks and cache together.
- `FatDir`, `FatEquiv`: the flat directory of BasicFATFS and its agreement with the B-tree directory.
- `FileMap`: logical to physical blocks of a file, and the reverse map.

The degree of the trees is a parameter t of at least 2 (80 in the code). Hash values come from a
parameter; nothing is assumed of it unless a statement says so. Field widths are modelled where the
code lets them wrap (the allocator's counters, `nr_of_files`).

Where the code departs from its evident intent, the smallest repair is modelled for these, and the doc
comment of the member says so: the missing bound on `index` in the lookups of the directory operations, on
disk and in the cache, and in `update_namelist_info` (btree.h:70, 110, 149; cache.h:298); in merge, the
missing bound of the child loop and the use of a slot after it was shifted and zeroed (btree.h:603-619); in
fill, the siblings of the "previous" case and the index to descend to after a merge with the last child
(btree.h:726-763, 856-877, 928-940), in the cached tree as on disk; deletion of an absent hash at a leaf,
which goes on to a child the leaf does not have, on disk and in the cache (btree.h:916-940;
btreecache.h:416-421); the predecessor and successor loops of the cached tree (btreecache.h:227, 238); in
the defragmentation of a name block, the loop that fills it from the next one, which does not move on and
copies to where the last live record ended rather than to the end of the used part (defrag.h:552-583), and
the loop that tells the tree the new places, which neither starts over nor knows the block's new number
(defrag.h:666-689). What these last two loops do as written is stated beside the repairs.

The following are modelled as written, and what follows from them is stated exactly: the unguarded lookups,
beside the repaired ones (btree.h:70; cache.h:298); insertions for which there are not blocks enough, which
can be reported as made or cost half of the directory (btree.h:284-299, 383-402); parent fields, which
insertion and deletion do not keep up to date when children move (btree.h:216-220, 603-619, 744-762,
809-830); the counter of files (btree.h:947-1007); the root block that is never released when the root gives
way (btree.h:970-999); the allocator's counters (bitmap.h:44-58, 82-93); the order in which the defragmenter
repairs references (defrag.h:113-149, 610-660, 844-880), and its reading of a data block's type
(defrag.h:122); `prev_block` of a third or later name block (nametree.h:147, 188); listing from a position
inside a block (nametree.h:32); the block number handed out on create (file.c:125-147); and the release of
block 0 in place of a file's table (file.c:64, 98). The defragmenter's theorems ask for correct parent
links, which `DiskTree.Volume.NodeInsert` and `DiskRoot.DeleteEntry` say exactly when a directory still has.

Nothing was executed; the code is C for the Linux kernel and was only read.

## Model

| member | source | states |
|---|---|---|
| BTree.LookupIsFind | BasicBTFS/btree.h:52-84 | On every valid tree, search with the bound on `index` that deletion has (a declared repair) gives what linear search in the in-order sequence of entries gives. |
| BTree.SplitShape | BasicBTFS/btree.h:166-244 | Splitting a full child keeps equal leaf depth and t-1 to 2t-1 keys in every non-root node. |
| BTree.SplitFlat | BasicBTFS/btree.h:166-244 | Splitting a full child leaves the in-order sequence as it was. |
| BTree.InsertNonFullFlat | BasicBTFS/btree.h:246-307 | Insertion of an absent hash, through every cascade of splits, inserts exactly that entry into the sorted sequence. |
| BTree.InsertNonFullSize | BasicBTFS/btree.h:246-307 | It adds exactly as many nodes as it splits. |
| BTreeDelete.MergeFlat | BasicBTFS/btree.h:562-629 | Merging two children around a key leaves the in-order sequence as it was. |
| BTreeDelete.StealPrevFlat | BasicBTFS/btree.h:713-776 | Borrowing from the previous sibling leaves the in-order sequence as it was. |
| BTreeDelete.StealNextFlat | BasicBTFS/btree.h:778-841 | Borrowing from the next sibling leaves the in-order sequence as it was. |
| BTreeDelete.PrepareShape | BasicBTFS/btree.h:843-945 | Whatever the descent does first (steal, merge, predecessor, successor), the node stays valid and the child it enters has at least t keys. |
| BTreeDelete.ReplaceByPred | BasicBTFS/btree.h:631-711 | Overwriting a key by its predecessor and deleting that below removes exactly the key. |
| BTreeDelete.ReplaceBySucc | BasicBTFS/btree.h:631-711 | The same with the successor. |
| BTreeDelete.DeleteFlat | BasicBTFS/btree.h:895-945 | Deletion removes exactly the entry filed under the hash from the sequence, for every tree and every cascade of cases; an absent hash removes nothing (repaired at the leaf). |
| BTreeDelete.DeleteSize | BasicBTFS/btree.h:562-945 | It removes exactly as many nodes as it merges. |
| BTreeRuns.InsertCorrect | BasicBTFS/btree.h:344-430 | Through the root: the directory stays valid, its finite map gains exactly the new binding, and the height grows by one exactly when the root was full. |
| BTreeRuns.DeleteCorrect | BasicBTFS/btree.h:947-1007 | Through the root: the directory stays valid and its finite map loses exactly that binding; the height drops by at most one. |
| BTreeRuns.DeleteCountExact | BasicBTFS/btree.h:947-1007 | `nr_of_files` is lowered unconditionally, also where the (repaired) deletion of an absent hash changes nothing: it is still the number of keys if and only if the deleted hash was there. |
| BTreeRuns.RunRefines | BasicBTFS/btree.h:344-1007 | Over every run of inserts, deletes and lookups the tree answers as a finite map from hash to entry and stays a valid B-tree whose counter is its number of keys. |
| Bitmap.Allocator.IsRangeEmpty | BasicBTFS/bitmap.h:19-23 | True exactly for a clear run inside the bitmap. |
| Bitmap.Allocator.GetFreeBlocks | BasicBTFS/bitmap.h:82-93 | First fit from block 1; the new run was clear and is now set; on failure the bitmap is unchanged but the counters are not (as written). |
| Bitmap.Allocator.GetOffset | BasicBTFS/bitmap.h:44-58 | First fit from a given block; the free count is not lowered (as written). |
| Bitmap.Allocator.PutBlocks | BasicBTFS/bitmap.h:95-115 | Clears exactly the run and raises the count by its length. A run that ends one past the bitmap is let through, and the count is then one too high (as written); anything further out is ignored. |
| AllocRuns.SoundRun | BasicBTFS/bitmap.h:44-115 | Over every run of requests and releases of owned runs, the runs held are allocated, pairwise disjoint and never contain block 0. |
| AllocRuns.DriftRun | BasicBTFS/bitmap.h:44-115 | Over every such run the free count plus the number of set bits moves by exactly what `get_offset` took minus what failing requests asked for, modulo 2^32. |
| AllocRuns.MarkRun | BasicBTFS/bitmap.h:44-93 | Over every such run the high-water mark stays above all allocated blocks, as the defragmenter needs it, if and only if no run handed out reaches across it and no failing request sets it too low. |
| AllocRuns.MarkPassed | BasicBTFS/bitmap.h:82-91 | A concrete request after which an allocated block lies at the mark. |
| AllocRuns.CountExact | BasicBTFS/bitmap.h:82-115 | Without those two kinds of events the free count plus the number of set bits is constant modulo 2^32. |
| DiskTree.MakeRoom | BasicBTFS/btree.h:259-268 | The shifting scan of a leaf finds the insertion position and moves exactly the entries behind it. |
| DiskTree.SplitNodes | BasicBTFS/btree.h:203-236 | The copy and shift loops of a split: the new right node, zeroed past its keys and naming its parent, and the rewritten parent, slot by slot. |
| DiskTree.Volume.SplitChildBlock | BasicBTFS/btree.h:166-244 | On blocks: three nodes are rewritten into the split tree, one free block is taken, no other allocated block changes; without a free block nothing changes. The new node names its parent; parent fields that were right are right afterwards if and only if the split child is a leaf. |
| DiskTree.Volume.OpenChild | BasicBTFS/btree.h:270-299 | On blocks: the child the insertion goes to, split first if it is full; refused exactly if it is full and no block is free, and then nothing changes. |
| DiskTree.Volume.InsertIntoLeaf | BasicBTFS/btree.h:259-268 | On blocks: the leaf gains the entry at its position. |
| DiskTree.Volume.InsertNonFullAt | BasicBTFS/btree.h:246-307 | On blocks, with however many blocks free: the stored tree becomes the tree `Tried` says (with enough of them, the tree with the entry inserted); a refusal is reported only from the first level down; the footprint grows by exactly the newly allocated blocks; every other allocated block is as before; parent fields stay right if and only if no inner node is split on the way down. |
| DiskTree.Volume.InsertIntoChild | BasicBTFS/btree.h:299-303 | On blocks: the recursive call rewrites one subtree and leaves its siblings alone. |
| DiskTree.Volume.NewRoot | BasicBTFS/btree.h:361-381 | On blocks: a new root over the old one, if a block is free. |
| DiskTree.Volume.SplitOldRoot | BasicBTFS/btree.h:383-389 | On blocks: the old root is split under the new one. |
| DiskTree.Volume.GrowRoot | BasicBTFS/btree.h:358-417 | On blocks: the case of a full root, with the inode, the file count and the name list handed over; the old root is no root any more and names the new one. Refused, the directory stays at its old root, of which the upper half is gone if the split was made. |
| DiskTree.Volume.NodeInsert | BasicBTFS/btree.h:344-430 | On blocks: insertion through the root for every valid tree and any number of free blocks, with the outcome that `Room` states. With room it takes exactly the predicted number of blocks; `nr_of_files` is raised by one, the inode names the new root; unused slots that were out of reach of searches stay so; parent fields that were right stay right if and only if every node split, the root included, is a leaf. |
| Room.Outcome | BasicBTFS/btree.h:246-430 | What becomes of an insertion with m blocks free: made if there is room for all its splits; never made otherwise; if success is reported all the same, the sequence of entries is as it was; if it is refused, everything from the middle key of the root on is lost exactly if the root was full and its split was made. |
| Room.BoundExact | BasicBTFS/btree.h:284-299 | The hash is bound afterwards if and only if there was room; where success is reported, `nr_of_files` is the number of keys if and only if there was room; where not, if and only if no half was lost. |
| Room.ReportExact | BasicBTFS/btree.h:284-299 | Success is reported if and only if there are blocks for the splits at the root and one level below; so an insertion is lost in silence exactly if there are blocks for those and not for all. |
| Room.SilentlyLost | BasicBTFS/btree.h:299 | A concrete tree and an insertion reported to be made that is not: what the recursive call returns is dropped. |
| Room.HalfLost | BasicBTFS/btree.h:383-402 | A concrete directory that is cut in half by an insertion that is refused. |
| DiskTree.CleanSplit | BasicBTFS/btree.h:212-234 | A split leaves the upper keys in the lower node's unused slots, where no search that reaches the node can meet them; the new node's unused slots are zero. |
| LookupSlots.NodeLookup | BasicBTFS/btree.h:52-84 | The lookup as written, without a bound on `index`, on any stored tree, also after deletions: the answer is the right inode if and only if no node on the search path is misread past its keys (a left-over slot, or the children array behind a full node) or what is misread happens to be that inode; otherwise it is the misread number. |
| LookupSlots.CleanReads | BasicBTFS/btree.h:65-74 | Where unused slots are zero or out of reach, no left-over slot is ever taken for a file. |
| LookupSlots.InsertAll | BasicBTFS/btree.h:344-430 | Any number of insertions through the root: the tree holds exactly the entries inserted, and its unused slots are still clean. |
| LookupSlots.InsertsThenLookup | BasicBTFS/btree.h:52-84 | In every run made of insertions only, from a new directory on, the unguarded lookup gives the inode inserted under the hash, or 0 if there is none, if and only if no full node is misread past its last slot or that number happens to be the inode. |
| LookupSlots.RemoveThenLookup | BasicBTFS/btree.h:452-473 | Removing a key from a leaf and looking its hash up as written: the file is still found if and only if it was the last key. |
| DiskDelete.FindKeyLoop | BasicBTFS/btree.h:432-450 | The scan stops at the first key not below the hash. |
| DiskDelete.LookupWithEntry | BasicBTFS/btree.h:130-164 | On blocks: the entry stored under a hash, found exactly if it is there (repaired: bound on `index`). |
| DiskDelete.GetPredecessor | BasicBTFS/btree.h:475-516 | On blocks: the greatest entry of the subtree left of a key. |
| DiskDelete.GetSuccessor | BasicBTFS/btree.h:518-560 | On blocks: the least entry of the subtree right of a key. |
| DiskDelete.MergeBlocks | BasicBTFS/btree.h:562-629 | On blocks: two children and the key between them become one node, exactly one block is released (repaired: bounds, order of reading the freed slot); parent fields stay right if and only if the children are leaves. |
| DiskDelete.StealFromPrevious | BasicBTFS/btree.h:713-776 | On blocks: one entry moves right through the parent (repaired: siblings index-1 and index); parent fields stay right if and only if the children are leaves. |
| DiskDelete.StealFromNext | BasicBTFS/btree.h:778-841 | On blocks: one entry moves left through the parent; parent fields stay right if and only if the children are leaves. |
| DiskDelete.MergeNodes | BasicBTFS/btree.h:597-620 | The loops of a merge, slot by slot (repaired). |
| DiskDelete.FillChild | BasicBTFS/btree.h:843-893 | On blocks: a child with too few keys is filled by a neighbour or merged with one (repaired: previous sibling, index after a merge with the last child). |
| DiskDelete.FillForDescent | BasicBTFS/btree.h:920-936 | On blocks: the child the deletion enters has enough keys. |
| DiskDelete.RemoveFromLeaf | BasicBTFS/btree.h:452-473 | On blocks: exactly one entry leaves the leaf, and what stays in the slots is said slot by slot. |
| DiskDelete.TakeOutKey | BasicBTFS/btree.h:631-711 | On blocks: the three cases for a key in an internal node. |
| DiskDelete.NodeDelete | BasicBTFS/btree.h:895-945 | On blocks: the stored tree becomes the tree with the entry removed, laid out as `DeleteLoc` says, exactly the merged-away blocks are released, no parent field is written, nothing outside the footprint changes; terminates (repaired: fill, descent after a merge, absent hash at a leaf). |
| DiskRoot.HandOver | BasicBTFS/btree.h:970-999 | On blocks: the only child of an empty root becomes the root. |
| DiskRoot.DeleteEntry | BasicBTFS/btree.h:947-1007 | On blocks: deletion through the root; when the root gives way its block stays allocated (as written); parent fields that were right stay right if and only if no child of an inner node is moved for good. |
| DeleteLayout.DeleteKids | BasicBTFS/btree.h:562-945 | A deletion takes at most one child from a node, by a merge, and leaves the others where they are. |
| DeleteLayout.DeleteParents | BasicBTFS/btree.h:562-945 | The exact condition on the tree before the deletion: parent fields below the node's children are wrong afterwards if and only if, somewhere on the way down, inner nodes are merged, or one takes a child from a neighbour that is not merged away one level below. |
| Parents.InsertLevel | BasicBTFS/btree.h:216-299 | One level of an insertion: parent fields are right afterwards exactly if no inner node was split on it and those below are right. |
| ParentLinks.LinkedParents | BasicBTFS/defrag.h:218-280 | A volume the defragmenter can work on has all parent fields right; so a tree that has lost them is on no such volume. |
| ParentLinks.WideLost | BasicBTFS/btree.h:216-220 | A concrete stored directory with right parent fields on which one more insertion loses them. |
| ParentLinks.DeepLost | BasicBTFS/btree.h:603-619 | A concrete directory on which one deletion does. |
| DiskRoot.FreeTree | BasicBTFS/dir.c:225-267 | Exactly the blocks of the tree are released, each once. |
| DiskRoot.FreeNamelist | BasicBTFS/dir.c:269-301 | Exactly the blocks of the name chain are released, each once. |
| DiskRoot.FreeDirectory | BasicBTFS/inode.c:343-345 | Removing a directory releases exactly its tree and its name chain, and the free count rises by their number. |
| System.MovedTree | BasicBTFS/defrag.h:218-280 | If a state is another one with its live blocks consistently renumbered, every tree reads the same at the new numbers. |
| System.MovedChain | BasicBTFS/defrag.h:282-347 | ... every name list reads the same. |
| System.MovedFile | BasicBTFS/defrag.h:370-468 | ... every block of every file reads the same. |
| System.MovedTwice | BasicBTFS/defrag.h:168-216 | Two renumberings in a row are one. |
| System.MovedLinked | BasicBTFS/defrag.h:218-468 | A renumbered block graph is well linked again: parents, roots, name links, tables, reverse map. |
| Relocate.TreeMoved | BasicBTFS/defrag.h:218-280 | Copying a node to a free block and rewriting its parent's slot, its inode and its children's parent fields renumbers it everywhere. |
| Relocate.NameMoved | BasicBTFS/defrag.h:282-347 | The same for a name block and its neighbours or its directory's root. |
| Relocate.TableMoved | BasicBTFS/defrag.h:349-368 | The same for a cluster table and its inode. |
| Relocate.DataMoved | BasicBTFS/defrag.h:370-468 | The same for a whole cluster, its table and the reverse map. |
| DefragStep.TreeOverTreeExact | BasicBTFS/defrag.h:113-133 | Exchanging a node with another node in its way, in the order the code repairs references, is a consistent renumbering if and only if the one in the way is neither a later sibling nor the parent. |
| DefragStep.TreeOverNameMoved | BasicBTFS/defrag.h:139-143 | With a name block in the way it always is. |
| DefragStep.TreeOverTableMoved | BasicBTFS/defrag.h:134-138 | With a cluster table in the way it always is. |
| DefragStep.TreeOverDataMoved | BasicBTFS/defrag.h:144-149 | With the first block of a file's cluster in the way it always is. |
| DefragStep.DataAlone | BasicBTFS/defrag.h:122-149 | Where the switch takes the first word of a data block for the type of another block and puts that one block elsewhere, no repair whatever makes the result a consistent renumbering: a cluster has one place in its table. |
| DefragWhole.CrossedSlots | BasicBTFS/defrag.h:125-133 | A concrete well-linked directory in which the exchange with a later sibling swaps two child slots, so that the keys below the root's key end up to its right. |
| Defrag.MoveBtreeNode | BasicBTFS/defrag.h:218-280 | The routine makes exactly the reference changes of the tree-node move. |
| Defrag.AdoptChildren | BasicBTFS/defrag.h:260-277 | Exactly the children get the new parent number. |
| Defrag.MoveNamelist | BasicBTFS/defrag.h:282-347 | The routine makes exactly the reference changes of the name-block move. |
| Defrag.MoveClusterTable | BasicBTFS/defrag.h:349-368 | The routine changes the inode, and fails only on an invalid block number. |
| Defrag.MoveFileBlock | BasicBTFS/defrag.h:370-468 | The routine takes a run at the high-water mark, copies the cluster, releases the old run and repairs table and reverse map. |
| Defrag.Renumber | BasicBTFS/io.h:91-111 | The reverse-map entries of both runs, and no others, are rewritten. |
| DefragNode.RedirectSlots | BasicBTFS/defrag.h:125-130 | Every slot that names the evicted block gets the new number. |
| DefragNode.SwapTree | BasicBTFS/defrag.h:119-133 | The code for a tree node in the way computes that exchange. |
| DefragNode.SwapName | BasicBTFS/defrag.h:119-143 | The code for a name block in the way computes that exchange. |
| DefragNode.SwapTable | BasicBTFS/defrag.h:119-138 | The code for a cluster table in the way computes that exchange. |
| DefragNode.SwapData | BasicBTFS/defrag.h:119-149 | The code for file data in the way computes that exchange and accounts for every block it takes and releases. |
| DefragNode.PlaceFree | BasicBTFS/defrag.h:41-74 | A free wanted block: the node is renumbered to it, its old block released. |
| DefragNode.PlaceOver | BasicBTFS/defrag.h:75-158 | An occupied wanted block: what was there goes to the high-water mark. |
| DefragNode.PlaceOverData | BasicBTFS/defrag.h:144-158 | File data on the wanted block: the whole cluster goes past the high-water mark. |
| DefragNode.DefragBtreeNode | BasicBTFS/defrag.h:25-166 | One step: the node is at the wanted block whatever was there, the whole block graph is consistently renumbered, nothing below the wanted block moves and what is evicted goes past the old high-water mark. |
| DefragTree.OrderedPreorder | BasicBTFS/defrag.h:168-216 | The layout the walk produces lists off, off+1, ... in preorder. |
| DefragTree.StraddleStep | BasicBTFS/defrag.h:370-468 | No step leaves a cluster reaching across the next wanted block. |
| DefragTree.NextKidSafe | BasicBTFS/defrag.h:196-213 | Along a walk without clashes no child is asked to go to a later sibling's or its parent's block. |
| DefragTree.DefragKids | BasicBTFS/defrag.h:196-213 | The loop over the children keeps the layout, the renumbering and the free space accounts. |
| DefragTree.DefragBtree | BasicBTFS/defrag.h:168-216 | The n nodes of a tree end in preorder on off .. off+n-1, the offset advances by exactly n, and the whole block graph is consistently renumbered. |
| DefragClash.NoClashIs | BasicBTFS/defrag.h:168-216 | The condition of the walk, node by node: no node has a later sibling on the block it is to take. |
| DefragClash.ClashExact | BasicBTFS/defrag.h:196-213 | In every state the walk over a directory's tree can reach, the node that comes next has a later sibling in its way if and only if it had one there in the layout the walk began with. |
| DefragClash.WalkExact | BasicBTFS/defrag.h:168-216 | So the condition is exact: where it holds no step meets a later sibling; where it fails there is a node at which every walk that gets there makes a step that is no consistent renumbering. |
| DefragWhole.MovedReads | BasicBTFS/defrag.h:218-468 | What that means: every tree, name list and file block on the volume reads as before. |
| DefragWhole.DefragDirectoryTree | BasicBTFS/defrag.h:1081-1097 | For a whole directory tree: consecutive preorder placement, the inode names the new root, and everything on the volume reads as before. |
| DefragEvict.EvictedMoved | BasicBTFS/defrag.h:218-468 | Whatever kind of block is evicted, the repair after the copy renumbers the block graph consistently. |
| DefragEvict.EvictMirrors | BasicBTFS/defrag.h:121-150 | ... also while some other object is between two places: the repair behind the back of a move that is under way is the repair in the graph without that move. |
| DefragEvict.EvictBlock | BasicBTFS/defrag.h:850-866 | The switch on the block type and the four routines it calls compute that repair and account for every block they take and release. |
| DefragTable.TableOverExact | BasicBTFS/defrag.h:844-880 | Putting a cluster table over an occupied block, in the order of the code, renumbers consistently if and only if what is in the way is not a block of the table's own file. |
| DefragTable.PlaceTable | BasicBTFS/defrag.h:773-881 | The table of a file goes to the wanted block whatever else is there; its inode follows. |
| DefragFile.PieceFree | BasicBTFS/defrag.h:909-945 | One block of a cluster copied to a free place, while the cluster is in two pieces. |
| DefragFile.PieceOver | BasicBTFS/defrag.h:946-1012 | One block copied to a taken place: what was there, even a whole cluster of this or another file, is evicted while the moving cluster is in two pieces. |
| DefragFile.InTheWay | BasicBTFS/defrag.h:903-948 | What lies at the next place never belongs to the moving cluster, and if it is data a cluster begins there. |
| DefragFile.PieceToFree | BasicBTFS/defrag.h:909-945 | The code for a free place keeps all of that, bitmap and reverse map included. |
| DefragFile.PieceToTaken | BasicBTFS/defrag.h:946-1012 | The code for a taken place keeps all of that. |
| DefragFile.ClusterDone | BasicBTFS/defrag.h:1016 | Once all blocks are copied and the table has the new start, the cluster has moved consistently, even if the old and the new place overlap. |
| DefragFile.MoveCluster | BasicBTFS/defrag.h:894-1019 | The loop over the blocks: the cluster lies at the wanted place, nothing below it moves, what was in the way lies past the old high-water mark. |
| DefragFileWhole.DefragFileTableBlock | BasicBTFS/defrag.h:759-1025 | A file's table lands on the wanted block and its n clusters on the blocks behind it in order; every file, tree and name list reads as before; tables and reverse map agree; nothing else below the wanted block moves. |
| DefragName.NameOverExact | BasicBTFS/defrag.h:610-660 | Putting a name block over an occupied block, in the order of the code, renumbers consistently if and only if what is in the way is neither its neighbour in the list nor the root of its directory. |
| DefragClash.NamesClashExact | BasicBTFS/defrag.h:610-660 | While a list is being laid out block by block, what lies on the next wanted block is adjacent to the block that goes there if and only if it is its successor, lying there from the beginning. |
| DefragName.PlaceName | BasicBTFS/defrag.h:588-664 | A name block goes to the wanted block, whatever is there but something adjacent. |
| NameRecords.ParseEnc | BasicBTFS/nametree.h:99-124 | Packed name records read back as they were. |
| NameRecords.RecordAt | BasicBTFS/nametree.h:24-53 | At the offset of a record stand its inode, its length and its name. |
| NameBlocks.ParsedOnce | BasicBTFS/nametree.h:14-55 | The bytes of a block determine its records. |
| NameBlocks.InsertEntry | BasicBTFS/nametree.h:99-124 | Appends exactly one record; the bytes parse as the records up to `start_unused_area`, `nr_of_entries` counts the live ones, `free_bytes` is the capacity minus their sizes; the offset returned is the record's. |
| NameBlocks.DeleteEntry | BasicBTFS/nametree.h:207-237 | Turns exactly one record into a tombstone; the block still parses and its counters still tell the truth. |
| NameBlocks.EmitBlock | BasicBTFS/nametree.h:14-55 | The loop that steps its counter back on tombstones terminates and hands out the live records once, in order, each with its inode and its name, up to what the caller takes. |
| NameCompact.SqueezeLive | BasicBTFS/defrag.h:493-528 | Squeezing keeps the sequence of live records. |
| NameCompact.SqueezeOffset | BasicBTFS/defrag.h:493-528 | Each live record lies right behind the live records before it. |
| NameCompact.PullTail | BasicBTFS/defrag.h:515-519 | The copy brings the rest of the block forward byte by byte. |
| NamePhases.SqueezeBlock | BasicBTFS/defrag.h:493-528 | On blocks: the squeezing loop terminates, keeps the live records in order, and the entries of exactly these records have their new offsets; it fails exactly when some live name has no entry. |
| NamePull.PullStops | BasicBTFS/defrag.h:552-583 | The loop that fills a block from the next one, as written, comes to an end if and only if there is nothing to pull, the first record does not fit, or it is live and after it nothing is left or it would not fit again. |
| NamePull.ToldRight | BasicBTFS/defrag.h:666-689 | The places the last loop tells the tree, as written, are right if and only if the block has no live record. |
| NamePull.PullLive | BasicBTFS/defrag.h:552-583 | Filling a block from the next one (repaired: the loop advances) keeps the live records of both together, in the same order. |
| NamePull.PullNext | BasicBTFS/defrag.h:532-584 | On blocks: that loop, byte for byte; both blocks still parse and their counters tell the truth. |
| NamePull.Reindex | BasicBTFS/defrag.h:666-689 | On blocks: the last loop (repaired: it starts over and tells the new number) leaves every live record of the block where its entry says, and no other entry changed. |
| NamePlaces.UpdateNamelistInfo | BasicBTFS/btree.h:86-128 | On blocks: exactly the entry of one hash gets the new place (repaired: bound on `index`). |
| NamePlaces.SetPlaceFlat | BasicBTFS/btree.h:86-128 | That is one entry changed in the in-order sequence. |
| NameList.Names.InsertName | BasicBTFS/nametree.h:126-205 | First fit along the chain or one new block; the returned block and offset address the record; other blocks are unchanged. A new block is taken if and only if every block has at most the bytes of the record behind its records. |
| NameList.RoomInBytes | BasicBTFS/nametree.h:126-165 | In bytes: the block chosen is the first with more than the record takes behind its records. |
| NameList.OneMore | BasicBTFS/nametree.h:168-190 | The `prev_block` written into a new block is right if and only if the chain had one block. |
| NameList.Names.DeleteName | BasicBTFS/nametree.h:207-237 | Exactly the addressed record becomes a tombstone; links unchanged. |
| NameList.Names.Iterate | BasicBTFS/nametree.h:57-97 | Listing hands out the blocks' live records in chain order, up to what the caller takes; from the beginning each item is the record at its place, inode and name. |
| NameList.ListedFromStart | BasicBTFS/nametree.h:57-97 | From position 0 every live record is handed out exactly once. |
| NameList.ResumeExact | BasicBTFS/nametree.h:32-54 | A listing resumed at a position continues where it stopped if and only if a block begins there. |
| Directory.OneRecordPerHash | BasicBTFS/dir.c:88-132 | No two live records have names of one hash: entries and live records are in bijection. |
| Directory.AddAddressed | BasicBTFS/dir.c:88-132 | Adding keeps the bijection: the new entry addresses the new record, all others theirs. |
| Directory.EraseAddressed | BasicBTFS/dir.c:134-171 | Deleting keeps the bijection. |
| Directory.AddGood | BasicBTFS/dir.c:88-132 | A name with a new hash is bound, one with a taken hash changes nothing; the directory stays in order. |
| Directory.DeleteGood | BasicBTFS/dir.c:134-171 | Exactly the name's hash is unbound. |
| Directory.SearchIs | BasicBTFS/dir.c:61-86 | Search (with the bound on `index`, a declared repair) gives the inode bound to the name's hash, and 0 exactly if there is none. |
| Directory.RenameGood | BasicBTFS/dir.c:173-223 | A rename goes through if and only if the new name's hash is free and there are fewer entries than the limit (modulo 2^32); then the new name has the old inode, the old name is gone, and every other name's answer stays. Otherwise nothing changes. |
| Directory.RenameCheckIs | BasicBTFS/dir.c:197-212 | A rename is refused as existing if and only if the new name's hash is bound, and let through if and only if it is not and there are fewer entries than the limit. |
| DirectoryOps.SearchEntry | BasicBTFSNC/dir.c:53-70 | On blocks: computes that search (repaired: bound on `index`). |
| DirectoryOps.SearchAsWritten | BasicBTFSNC/dir.c:53-70 | The search as written answers as the directory does if and only if nothing on the way is misread or what is misread is the right inode. |
| DirectoryOps.TakenAsWritten | BasicBTFSNC/dir.c:91-96 | The test for an existing name as written is right if and only if nothing is misread, or what is misread says the same. |
| DirectoryOps.AddEntry | BasicBTFSNC/dir.c:72-107 | On blocks: tree, name list and allocator together come to hold the directory with the name added; refused exactly when the hash is taken (repaired: bound on `index`). |
| DirectoryOps.DeleteEntry | BasicBTFSNC/dir.c:109-135 | On blocks: they come to hold the directory with the name deleted. |
| DirectoryOps.UpdateEntry | BasicBTFSNC/dir.c:137-187 | On blocks: rename within one directory, refused exactly in those cases (repaired: bound on `index`). |
| DirectoryOps.ListEntries | BasicBTFSNC/dir.c:15-51 | On blocks: from the beginning a listing hands out each name once, with the inode that search gives for it; listed to the end, it is the whole directory. Nothing past the limit on entries. |
| Listing.ListingIs | BasicBTFS/nametree.h:57-97 | In every directory in order the listing shows each bound hash once, under a name of that hash and with the inode that is bound to it, and nothing else. |
| Listing.InsertShown | BasicBTFS/nametree.h:99-205 | After a name is stored the listing has exactly the item with that inode and that name more, all others in the same order. |
| Listing.EraseShown | BasicBTFS/nametree.h:207-237 | After a record is deleted the listing has exactly its item less. |
| Listing.StepServes | BasicBTFS/dir.c:61-223 | Adding, deleting, renaming and finding a name do to what the listing shows what the request does to a finite map from hash to name and inode, and answer alike. |
| Listing.RunServes | BasicBTFS/dir.c:61-223 | So over every run: all answers, and the listing at the end. |
| DirectoryCache.InsertSize | BasicBTFS/btreecache.h:55-179 | Insertion adds as many nodes to the cached tree as it splits, and one for a new root. |
| DirectoryCache.DeleteTreeSize | BasicBTFS/btreecache.h:246-472 | Deletion removes as many nodes as it merges, and one if the root gives way. |
| DirectoryCache.CacheInsertOk | BasicBTFS/btreecache.h:132-179 | Cached insertion keeps the cached tree valid, a submap of the disk tree, and `nr_of_blocks` equal to cached nodes plus cached name blocks plus three. |
| DirectoryCache.CacheDeleteOk | BasicBTFS/btreecache.h:403-472 | So does cached deletion, also of a hash the cache does not have. |
| DirectoryCache.CachedAddOk | BasicBTFS/dir.c:88-132 | Adding a name keeps both trees in step, also past the cap; the cached tree gains the new binding, and the cache a new name block, if and only if fewer than 250 blocks were cached when the operation began. |
| DirectoryCache.CachedDeleteOk | BasicBTFS/dir.c:134-171 | Deleting a name keeps both trees in step; the cached tree loses exactly that binding. |
| DirectoryCache.CachedSearchIs | BasicBTFS/dir.c:61-86 | A search through the cache answers as the disk tree does (both lookups repaired: bound on `index`). |
| DirectoryCache.CachedRunRefines | BasicBTFS/dir.c:61-223 | Over every run of add, delete, rename and search the cached directory gives the answers of the uncached one and leaves the same directory; the bijection, the submap and the block counter hold throughout (lookups repaired). |
| DirectoryCache.FreshOk | BasicBTFS/cache.h:13-42 | A new directory and its cache entry start in such a state. |
| NodeCache.DirCache.constructor | BasicBTFS/cache.h:13-42 | A new cache entry: one node, one name block, a count of five. |
| NodeCache.DirCache.AddNode | BasicBTFS/cache.h:44-58 | The node goes to the end of the list and is counted. |
| NodeCache.DirCache.DeleteNode | BasicBTFS/cache.h:325-338 | The node leaves list and heap and is counted out. |
| NodeCache.DirCache.UpdateRootNode | BasicBTFS/cache.h:105-118 | The node goes to the head of the list, no other comes or goes. |
| NodeCache.DirCache.SplitChild | BasicBTFS/btreecache.h:55-92 | On cached nodes: the tree is the split one, the new node is at the end of the list, nothing else changes. |
| NodeCache.DirCache.InsertNonFullAt | BasicBTFS/btreecache.h:94-130 | On cached nodes: the entry is inserted, the list grows by exactly the nodes split off. |
| NodeCache.DirCache.Insert | BasicBTFS/btreecache.h:132-179 | On cached nodes, through the root: the list holds exactly the nodes of the new tree, its root at the head. |
| NodeCache.DirCache.Merge | BasicBTFS/btreecache.h:246-278 | On cached nodes: two nodes become one, the other leaves the list (repaired: bound of the child loop). |
| NodeCache.DirCache.Fill | BasicBTFS/btreecache.h:376-401 | On cached nodes: steal or merge (repaired: previous sibling, index after a merge with the last child). |
| NodeCache.DirCache.Delete | BasicBTFS/btreecache.h:403-437 | On cached nodes: the entry is deleted, the list loses exactly the nodes merged away; an absent hash deletes nothing (repaired). |
| NodeCache.DirCache.DeleteEntry | BasicBTFS/btreecache.h:439-472 | On cached nodes, through the root: the list holds exactly the nodes of the new tree, its root at the head, also when the root gives way. |
| NodeCache.DirCache.FindAsWritten | BasicBTFS/cache.h:287-308 | The cached lookup as written is right if and only if nothing on the way is misread or what is misread is the right inode. |
| NodeCache.FootReachable | BasicBTFS/cache.h:44-58 | Every node of a stored tree is reachable from its root, |
| NodeCache.ReachableFoot | BasicBTFS/cache.h:44-58 | and nothing else is. |
| CachedOps.ListExact | BasicBTFS/cache.h:13-138 | The cached node list holds exactly the nodes reachable from its first element, each once, and `nr_of_blocks` is their number plus cached name blocks plus three. |
| CachedOps.SearchEntry | BasicBTFS/dir.c:61-86 | On blocks and in memory: the cached tree is asked first, then the disk (repaired: bound on `index`). |
| CachedOps.AddEntry | BasicBTFS/dir.c:88-132 | On blocks and in memory: both come to hold the directory with the name added; memory only while fewer than 250 blocks are cached, and then with the very name block that was hung on. |
| CachedOps.DeleteEntry | BasicBTFS/dir.c:134-171 | On blocks and in memory: both come to hold the directory with the name deleted, also if the cache never knew it. |
| CachedOps.UpdateEntry | BasicBTFS/dir.c:173-223 | On blocks and in memory: rename within one directory, refused exactly in those cases. |
| CachedOps.ServeAll | BasicBTFS/dir.c:61-223 | Any run of requests on volume, name blocks and cache: all answers, and the listing at the end, are those of a finite map from hash to name and inode; the disk holds that directory, and the cached nodes, list, head and counter are in step throughout. |
| Wording.RetellFirst | BasicBTFS/defrag.h:470-692 | Rewriting entries' places or name records after moving blocks is the same as rewriting them before. |
| DefragDirs.AlongTwice | BasicBTFS/defrag.h:1081-1114 | Two stretches of moving and rewriting are one. |
| DefragDirs.DirAlong | BasicBTFS/defrag.h:1081-1114 | A directory whose own blocks are not rewritten is the same directory after such a stretch. |
| DefragDirs.FileAlong | BasicBTFS/defrag.h:1081-1114 | Every block of every file reads the same after it. |
| NameFill.SqueezeIs | BasicBTFS/defrag.h:493-528 | Squeezed, a block holds its live records in order and, behind them, the tombstones that were behind the last of them. |
| NameFill.PullIs | BasicBTFS/defrag.h:552-583 | Filling (repaired: the loop advances) takes the live ones of the first k records of the next block, k being the first record at which nothing live is left or the record does not fit, in bytes. |
| NameFill.RepackedFront | BasicBTFS/defrag.h:493-583 | In a list so treated every block begins with those of its live records that it has kept, the first block with all of its own. |
| DefragNames.DefragNametreeBlock | BasicBTFS/defrag.h:470-692 | One block of a name list: it ends up with its own live records first, then the tombstones that were behind them, then what it took from its successor, which it goes on taking until no live record is left there or the next one does not fit; placed on the wanted block and re-indexed, with the same live records in the list in the same order and entries for the same files. |
| DefragNames.DefragNametree | BasicBTFS/defrag.h:695-757 | The n blocks of a list end on off .. off+n-1 in order, every entry addresses its record, and each block is squeezed and filled from the next as far as that goes. |
| DefragJobs.DoneBlocks | BasicBTFS/defrag.h:1081-1114 | A finished directory or file takes exactly the places from its first one on, without gaps. |
| DefragJobs.PendingKept | BasicBTFS/defrag.h:1081-1114 | Evictions never block the way of an object that is still to be done. |
| DefragJobs.SweepOn | BasicBTFS/defrag.h:1027-1114 | A step keeps the invariant of the run: what is done is gapless, what is not lies behind it, every block belongs to exactly one object, and all objects are those the run began with. |
| DefragObjects.DefragDirJob | BasicBTFS/defrag.h:1081-1105 | Tree and name list of a directory are such a step, and its name list is squeezed and filled. |
| DefragObjects.DefragFileJob | BasicBTFS/defrag.h:1056-1061 | A file is such a step. |
| DefragDirectories.DefragTraverseDirectory | BasicBTFS/defrag.h:1027-1079 | The walk over a directory's tree comes to every entry once, in order, although the volume is rearranged under it. |
| DefragDirectories.DefragEntry | BasicBTFS/defrag.h:1051-1061 | Each entry is treated by the mode of its inode. |
| DefragDirectories.DefragDirectory | BasicBTFS/defrag.h:1081-1114 | The recursion over the whole hierarchy terminates and keeps the invariant. |
| DefragRun.AllFit | BasicBTFS/defrag.h:1116-1129 | All wanted places lie below the high-water mark. |
| DefragRun.DoneAddressed | BasicBTFS/defrag.h:666-689 | After the run entries and live records of every directory are in bijection again, each entry addressing its record. |
| DefragRun.DefragDisk | BasicBTFS/defrag.h:1116-1131 | The allocated blocks from the first data block on are exactly the interval up to the final offset, which becomes the high-water mark; every directory has the same names and files, its name list squeezed and filled, every file the same content, and every object lies in one piece. |
| DefragRun.SmallReady | BasicBTFS/defrag.h:1116-1131 | A concrete volume on which a run can begin. |
| FatDir.RemoveFileFromDir | BasicFATFS/io.h:119-124 | The later slots of the block move down, the last one is zeroed. |
| FatDir.MoveFiles | BasicFATFS/io.h:113-117 | The first entry of a block fills the last slot of the one before. |
| FatDir.FatDirectory.SearchEntry | BasicFATFS/dir.c:78-130 | The inode of the first entry with the name, 0 if there is none. |
| FatDir.FatDirectory.AddEntry | BasicFATFS/dir.c:132-197 | The gap-free sequence gains the entry at its end. |
| FatDir.FatDirectory.DeleteEntry | BasicFATFS/dir.c:199-263 | The first entry with the inode leaves the sequence, the gap is closed across all later blocks, the order of the rest is kept and `nr_of_entries` is the length. |
| FatEquiv.RunSame | BasicFATFS/dir.c:78-263 | Over every run in which the hashes of the names are distinct and each inode has one name, the B-tree directory and the flat directory answer alike. |
| FatEquiv.ApartExact | BasicFATFS/dir.c:78-263 | Started from new directories, the two answer every run over a set of names alike if and only if no two of those names have one hash; a run that tells them apart is given for any two that do. |
| FileMap.SearchCluster | BasicBTFS/file.c:12-26 | The first cluster that is unused or whose prefix sum exceeds the block. |
| FileMap.SearchIs | BasicBTFS/file.c:12-26 | Below the size limit that is the block's cluster, or the first unused one; never -1. |
| FileMap.PhysInjective | BasicBTFS/file.c:102-154 | No physical block belongs to two (file, block) pairs. |
| FileMap.PhysKnown | BasicBTFS/io.h:91-111 | The reverse map names the inode and the cluster of every mapped block. |
| FileMap.PhysKept | BasicBTFS/file.c:124-135 | When a file grows, every block of every file that was mapped stays where it is and keeps its content. |
| FileMap.CreateExact | BasicBTFS/file.c:125-147 | The number handed out on create is the right one if and only if the file grows by one cluster and the block is its first. |
| FileMap.NewCluster | BasicBTFS/file.c:137-145 | Reverse map and content of exactly the new cluster are set. |
| FileMap.FileGetBlock | BasicBTFS/file.c:102-154 | Too big, a hole, out of space (exactly if no 16 clear bits lie in a row); an old block at the start of its cluster plus its place there, with the content the file has there; or a new cluster of zeroes joined to the block graph, which is well linked again. |
| FileMap.CreatedLinked | BasicBTFS/file.c:124-145 | The block graph with the new cluster is well linked again. |
| FileMap.FileFreeBlocks | BasicBTFS/file.c:56-100 | Exactly the clusters are released and forgotten by the reverse map: of the live blocks, those the reverse map gave to the file. As written, bit 0 is cleared as well, the table's own block stays allocated, and the free count rises by one more than the blocks of the file. |

## Left out

- Kernel plumbing (buffer heads and their dirty marks, slab caches, mount, VFS tables, page-cache callbacks, inode times and owners) and I/O errors: blocks are read and written directly.
- `bitmap_find_next_zero_area` and the CRC-32 hash: the first is modelled to its first-fit contract, the second is a parameter.
- DirectoryOps.AddEntry: takes blocks enough as given, as do `UpdateEntry`, the operations of `CachedOps` and the defragmenter's; running out is modelled at the allocator, in `NodeInsert` and all below it, in `InsertName` and in `FileGetBlock`.
- `nr_times_done`, and the counters of the cached root that nothing reads.
- The list of cached directories and its order of use (cache.h:16-40, 123-160): one directory's entry is modelled, found already.
- The contents of the in-memory copies of name blocks: which blocks are cached, and how many, is modelled.
- Listing a directory through its cached name blocks before the disk (dir.c:50-58).
- Renaming between two directories, and renaming in the flat directory.
- Directory removal with hard links, locking, and concurrency.
- mkfs, fsck, the defragmentation command, scripts, benchmarks, and the other sources of BasicBTFSNC.
- DefragTree.DefragBtree: assumes that no node is asked to take the place of one of its later siblings, that data blocks do not begin with the words 1, 2 or 3, that no cluster reaches across the first wanted block, and that there is room past the high-water mark; the first is exact for the whole walk (`WalkExact`), the second for one step (`DataAlone`).
- DefragFileWhole.DefragFileTableBlock: assumes the same of data blocks, clusters and room, and that the file's own data is not where its table has to go, the condition of `TableOverExact`.
- DefragRun.DefragDisk: assumes for every object, at the place it will have, the exact conditions of `WalkExact`, `NamesClashExact` and `TableOverExact`; that data blocks do not begin with the words 1, 2 or 3; correct back links in trees and name lists; and room for evictions.
- CachedOps.ServeAll: assumes blocks enough for the run, and that names are looked up before they are deleted or renamed.
- Bitmap.Allocator.PutBlocks: the bit one past the bitmap, which the code clears when its range test lets it through, is not part of the model.
- NamePull.PullNext: the place told for a pulled record is the wrong one that the code has at hand; the third phase tells the right one.
- DirectoryOps.DeleteEntry: is stated for names that are there, as the VFS asks; for others the code deletes at an uninitialised place.
- FatDir.FatDirectory.AddEntry: takes new entry blocks to come zeroed, which the allocator does not ensure.
- FatDir.FatDirectory.SearchEntry: compares whole names, where the code compares their first 255 bytes.
