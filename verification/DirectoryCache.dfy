/** The in-memory mirror of a directory (cache.h, btreecache.h): a second tree that follows
    the disk tree as long as the directory is small. However it falls behind, lookups
    through it answer as lookups on disk do. Here both are values; NodeCache has the mirror's
    nodes and their list, and is proved against this. */
module DirectoryCache {
  import opened Entries
  import opened BTree
  import BTreeDelete
  import BTreeRuns
  import NameList
  import opened Room
  import opened DiskTree
  import opened Directory

  /** BASICBTFS_MAX_CACHE_BLOCKS_PER_DIR */
  const MAX_CACHE_BLOCKS := 250

  /** nameBlocks counts the cached copies of name blocks. */
  datatype Cache = Cache(tree: Tree, height: nat, nrOfBlocks: int, nameBlocks: nat)

  datatype CachedDir = CachedDir(store: Store, cache: Option<Cache>)

  ghost predicate TreeOk(t: nat, tr: Tree, h: nat) {
    2 <= t && Shape(t, tr, h) && (0 < h ==> 1 <= |tr.keys|) && Sorted(Flat(tr))
  }

  ghost predicate Submap(a: map<nat, Entry>, b: map<nat, Entry>) { forall x | x in a :: x in b && a[x] == b[x] }

  /** The cached tree only knows entries the disk tree has, and the block counter counts. */
  ghost predicate CacheOk(t: nat, m: map<nat, Entry>, c: Cache) {
    && TreeOk(t, c.tree, c.height) && Submap(Dict(Flat(c.tree)), m)
    && c.nrOfBlocks == Size(c.tree) + c.nameBlocks + 3
  }

  ghost predicate Ok(t: nat, h: Hash, d: CachedDir) {
    Good(t, h, d.store) && (d.cache.Some? ==> CacheOk(t, BTreeRuns.Contents(d.store.disk), d.cache.value))
  }

  // -------------------------------------------------------- the cached tree

  /** Nodes an insertion adds, as basicbtfs_cache_add_node is called for each. */
  lemma InsertSize(t: nat, tr: Tree, h: nat, e: Entry)
    requires TreeOk(t, tr, h)
    ensures Size(BTreeRuns.InsertTree(t, tr, h, e)) == Size(tr) + RoomFor(t, tr, h, e)
  {
    if |tr.keys| == 2 * t - 1 {
      var root := Node([], [tr]);
      GrownSize(tr);
      InsertNonFullSize(t, root, h + 1, e);
    } else {
      InsertNonFullSize(t, tr, h, e);
    }
  }

  lemma GrownSize(tr: Tree)
    ensures Size(Node([], [tr])) == Size(tr) + 1
  {
    assert [tr][1..] == [];
    assert SizeAll([tr]) == Size(tr) + SizeAll([]);
  }

  ghost predicate GivesWay(r: Tree) { r.keys == [] && r.kids != [] }

  /** Nodes a deletion removes, as basicbtfs_cache_delete_node is called for each. */
  ghost function NodesGone(t: nat, tr: Tree, h: nat, x: nat): nat
    requires TreeOk(t, tr, h)
  {
    BTreeDelete.Merges(t, tr, h, x) + if GivesWay(BTreeDelete.Delete(t, tr, h, x)) then 1 else 0
  }

  lemma DeleteTreeSize(t: nat, tr: Tree, h: nat, x: nat)
    requires TreeOk(t, tr, h)
    ensures Size(BTreeRuns.DeleteTree(t, tr, h, x)) == Size(tr) - NodesGone(t, tr, h, x)
  {
    hide BTreeDelete.Delete, BTreeDelete.Merges, Size;
    var r := BTreeDelete.Delete(t, tr, h, x);
    BTreeDelete.DeleteSize(t, tr, h, x);
    if GivesWay(r) {
      OnlyChild(t, r, h);
      GrownSize(r.kids[0]);
    }
  }

  lemma OnlyChild(t: nat, r: Tree, h: nat)
    requires Shape(t, r, h) && GivesWay(r)
    ensures r == Node([], [r.kids[0]])
  {
  }

  // -------------------------------------------------------------- operations

  function NrOfBlocks(d: CachedDir): int { match d.cache case None => 0 case Some(c) => c.nrOfBlocks }

  /** basicbtfs_add_entry: the counter is read once, before anything is inserted. */
  ghost function CachedAdd(t: nat, h: Hash, d: CachedDir, name: seq<nat>, ino: nat, spare: nat): CachedDir
    requires Ok(t, h, d)
  {
    if Lookup(d.store.disk.tree, h(name)).Some? then d
    else CachedDir(Add(t, h, d.store, name, ino, spare),
                   if d.cache.None? || NrOfBlocks(d) >= MAX_CACHE_BLOCKS then d.cache
                   else Some(CacheInsert(t, d.cache.value, NewEntry(h, d.store.names, name, ino, spare),
                                         Slot(d.store.names, |name| + 1) == |d.store.names.recs|)))
  }

  ghost function CacheInsert(t: nat, c: Cache, e: Entry, newNameBlock: bool): Cache
    requires TreeOk(t, c.tree, c.height)
  {
    var n := if newNameBlock then 1 else 0;
    Cache(BTreeRuns.InsertTree(t, c.tree, c.height, e), BTreeRuns.InsertHeight(t, c.tree, c.height),
          c.nrOfBlocks + n + RoomFor(t, c.tree, c.height, e), c.nameBlocks + n)
  }

  /** basicbtfs_delete_entry: the cached tree is always asked to delete too. */
  ghost function CachedDelete(t: nat, h: Hash, d: CachedDir, name: seq<nat>): CachedDir
    requires Ok(t, h, d)
  {
    if Lookup(d.store.disk.tree, h(name)).None? then d
    else CachedDir(Delete(t, h, d.store, name),
                   match d.cache case None => None case Some(c) => Some(CacheDelete(t, c, h(name))))
  }

  ghost function CacheDelete(t: nat, c: Cache, x: nat): Cache
    requires TreeOk(t, c.tree, c.height)
  {
    Cache(BTreeRuns.DeleteTree(t, c.tree, c.height, x), BTreeRuns.DeleteHeight(t, c.tree, c.height, x),
          c.nrOfBlocks - NodesGone(t, c.tree, c.height, x), c.nameBlocks)
  }

  /** basicbtfs_search_entry: the cached tree first, the disk tree if it does not know. */
  ghost function CachedSearch(h: Hash, d: CachedDir, name: seq<nat>): nat {
    if d.cache.Some? && Lookup(d.cache.value.tree, h(name)).Some? then Lookup(d.cache.value.tree, h(name)).value.ino
    else Search(h, d.store, name)
  }

  ghost function CachedRename(t: nat, h: Hash, d: CachedDir, oldName: seq<nat>, newName: seq<nat>, ino: nat,
                              spare: nat): CachedDir
    requires Ok(t, h, d) && IsIno(ino) && spare !in d.store.names.bnos
  {
    if RenameCheck(h, d.store, newName) != Renamed then d
    else
      CachedAddOk(t, h, d, newName, ino, spare);
      CachedDelete(t, h, CachedAdd(t, h, d, newName, ino, spare), oldName)
  }

  // -------------------------------------------------------------- invariants

  lemma CacheInsertOk(t: nat, m: map<nat, Entry>, c: Cache, e: Entry, newNameBlock: bool)
    requires CacheOk(t, m, c) && e.hash !in m
    ensures CacheOk(t, m[e.hash := e], CacheInsert(t, c, e, newNameBlock))
    ensures Dict(Flat(CacheInsert(t, c, e, newNameBlock).tree)) == Dict(Flat(c.tree))[e.hash := e]
    ensures CacheInsert(t, c, e, newNameBlock).nameBlocks == c.nameBlocks + if newNameBlock then 1 else 0
  {
    hide Flat, Shape, BTreeRuns.InsertTree, Size, RoomFor, Sorted, Absent;
    DictKeys(Flat(c.tree), e.hash);
    BTreeRuns.InsertTreeFlat(t, c.tree, c.height, e);
    InsertIsUpdate(Flat(c.tree), e);
    InsertSize(t, c.tree, c.height, e);
    InsertedShape(t, c.tree, c.height, e);
  }

  lemma InsertedShape(t: nat, tr: Tree, h: nat, e: Entry)
    requires TreeOk(t, tr, h)
    ensures Shape(t, BTreeRuns.InsertTree(t, tr, h, e), BTreeRuns.InsertHeight(t, tr, h))
  {
  }

  lemma CacheDeleteOk(t: nat, m: map<nat, Entry>, c: Cache, x: nat)
    requires CacheOk(t, m, c)
    ensures CacheOk(t, m - {x}, CacheDelete(t, c, x))
    ensures Dict(Flat(CacheDelete(t, c, x).tree)) == Dict(Flat(c.tree)) - {x}
  {
    hide Flat, Shape, BTreeRuns.DeleteTree, BTreeRuns.DeleteHeight, Size, NodesGone, Sorted;
    BTreeRuns.DeleteTreeFlat(t, c.tree, c.height, x);
    RemoveIsDelete(Flat(c.tree), x);
    DeleteTreeSize(t, c.tree, c.height, x);
  }

  /** The cached tree's map. */
  function Known(d: CachedDir): map<nat, Entry> { if d.cache.None? then map[] else Dict(Flat(d.cache.value.tree)) }

  function NameBlocksOf(d: CachedDir): nat { if d.cache.None? then 0 else d.cache.value.nameBlocks }

  /** The cache takes a new entry exactly if fewer than 250 blocks were cached when the operation
      began; with it goes the name block that was hung on for it, if one was. */
  ghost predicate Takes(h: Hash, d: CachedDir, name: seq<nat>) {
    d.cache.Some? && d.cache.value.nrOfBlocks < 250 && h(name) !in BTreeRuns.Contents(d.store.disk)
  }

  lemma CachedAddOk(t: nat, h: Hash, d: CachedDir, name: seq<nat>, ino: nat, spare: nat)
    requires Ok(t, h, d) && IsIno(ino) && spare !in d.store.names.bnos
    ensures Ok(t, h, CachedAdd(t, h, d, name, ino, spare))
    ensures CachedAdd(t, h, d, name, ino, spare).store == Add(t, h, d.store, name, ino, spare)
    ensures var d' := CachedAdd(t, h, d, name, ino, spare); var m := BTreeRuns.Contents(d'.store.disk);
            && h(name) in m
            && Known(d') == (if Takes(h, d, name) then Known(d)[h(name) := m[h(name)]] else Known(d))
            && NameBlocksOf(d') - NameBlocksOf(d)
               == (if Takes(h, d, name) then |d'.store.names.bnos| - |d.store.names.bnos| else 0)
  {
    hide Good, CacheOk, Lookup, CacheInsert, BTreeRuns.Contents, Add, Flat, Dict;
    ChainGrown(t, h, d.store, name, ino, spare);
    AddGood(t, h, d.store, name, ino, spare);
    AddTaken(t, h, d.store, name, ino, spare);
    FoundInMap(t, h, d.store, name);
    var m := BTreeRuns.Contents(d.store.disk);
    var e := NewEntry(h, d.store.names, name, ino, spare);
    if Lookup(d.store.disk.tree, h(name)).None? && d.cache.Some? {
      if NrOfBlocks(d) < MAX_CACHE_BLOCKS {
        CacheInsertOk(t, m, d.cache.value, e, Slot(d.store.names, |name| + 1) == |d.store.names.recs|);
      } else {
        CacheBehind(t, m, d.cache.value, e);
      }
    }
  }

  lemma ChainGrown(t: nat, h: Hash, s: Store, name: seq<nat>, ino: nat, spare: nat)
    requires Good(t, h, s)
    ensures Lookup(s.disk.tree, h(name)).None? ==>
              |Add(t, h, s, name, ino, spare).names.bnos| - |s.names.bnos|
              == if Slot(s.names, |name| + 1) == |s.names.recs| then 1 else 0
  {
    hide Lookup, NameList.FirstWithRoom;
  }

  lemma AddTaken(t: nat, h: Hash, s: Store, name: seq<nat>, ino: nat, spare: nat)
    requires Good(t, h, s)
    ensures Lookup(s.disk.tree, h(name)).Some? ==> Add(t, h, s, name, ino, spare) == s
    ensures |s.names.bnos| == |s.names.recs|
  {
  }

  lemma FoundInMap(t: nat, h: Hash, s: Store, name: seq<nat>)
    requires Good(t, h, s)
    ensures Lookup(s.disk.tree, h(name)) == BTreeRuns.MapGet(BTreeRuns.Contents(s.disk), h(name))
  {
    BTreeRuns.LookupContents(t, s.disk, h(name));
  }

  /** An entry the cache does not take leaves it a submap. */
  lemma CacheBehind(t: nat, m: map<nat, Entry>, c: Cache, e: Entry)
    requires CacheOk(t, m, c) && e.hash !in m
    ensures CacheOk(t, m[e.hash := e], c)
  {
  }

  lemma KnownThere(t: nat, m: map<nat, Entry>, c: Cache)
    requires CacheOk(t, m, c)
    ensures forall x | x in Dict(Flat(c.tree)) :: x in m
  {
  }

  lemma CachedDeleteOk(t: nat, h: Hash, d: CachedDir, name: seq<nat>)
    requires Ok(t, h, d)
    ensures Ok(t, h, CachedDelete(t, h, d, name)) && CachedDelete(t, h, d, name).store == Delete(t, h, d.store, name)
    ensures Known(CachedDelete(t, h, d, name)) == Known(d) - {h(name)}
  {
    hide Good, CacheOk, CacheDelete, BTreeRuns.Contents, Lookup, Flat, Dict;
    FoundInMap(t, h, d.store, name);
    if d.cache.Some? && h(name) !in BTreeRuns.Contents(d.store.disk) {
      KnownThere(t, BTreeRuns.Contents(d.store.disk), d.cache.value);
      assert Known(d) - {h(name)} == Known(d);
    }
    DeleteGood(t, h, d.store, name);
    if d.cache.Some? {
      CacheDeleteOk(t, BTreeRuns.Contents(d.store.disk), d.cache.value, h(name));
    }
  }

  /** A lookup through the cache gives the inode the disk tree gives. */
  lemma CachedSearchIs(t: nat, h: Hash, d: CachedDir, name: seq<nat>)
    requires Ok(t, h, d)
    ensures CachedSearch(h, d, name) == Search(h, d.store, name)
  {
    hide Good, Lookup, BTreeRuns.Contents;
    FoundInMap(t, h, d.store, name);
    if d.cache.Some? {
      var c := d.cache.value;
      LookupIsFind(t, c.tree, c.height, h(name));
      FindIsDict(Flat(c.tree), h(name));
    }
  }

  // -------------------------------------------------------------------- runs

  datatype DirOp =
    | AddName(name: seq<nat>, ino: nat, spare: nat)
    | DeleteName(name: seq<nat>)
    | RenameName(oldName: seq<nat>, newName: seq<nat>, spare: nat)
    | FindName(name: seq<nat>)

  /** What the callers see to: inode numbers are valid, new blocks are new, and only names
      that are there are deleted or renamed. */
  ghost predicate Issued(t: nat, h: Hash, s: Store, op: DirOp) {
    match op
    case AddName(_, ino, spare) => IsIno(ino) && spare !in s.names.bnos
    case DeleteName(name) => Search(h, s, name) != 0
    case RenameName(oldName, _, spare) => IsIno(Search(h, s, oldName)) && spare !in s.names.bnos
    case FindName(_) => true
  }

  /** What an operation answers: an inode number, or whether it was let through. */
  datatype Answer = Found(ino: nat) | Added(ok: bool) | Deleted | RenameWas(r: RenameResult)

  /** One operation on a directory without a cache (BasicBTFSNC). */
  ghost function Step(t: nat, h: Hash, s: Store, op: DirOp): (Store, Answer)
    requires Good(t, h, s) && Issued(t, h, s, op)
  {
    match op
    case AddName(name, ino, spare) => (Add(t, h, s, name, ino, spare), Added(Lookup(s.disk.tree, h(name)).None?))
    case DeleteName(name) => (Delete(t, h, s, name), Deleted)
    case RenameName(o, n, spare) => (Rename(t, h, s, o, n, Search(h, s, o), spare), RenameWas(RenameCheck(h, s, n)))
    case FindName(name) => (s, Found(Search(h, s, name)))
  }

  /** The same operation on a directory with one. */
  ghost function CachedStep(t: nat, h: Hash, d: CachedDir, op: DirOp): (CachedDir, Answer)
    requires Ok(t, h, d) && Issued(t, h, d.store, op)
  {
    match op
    case AddName(name, ino, spare) =>
      (CachedAdd(t, h, d, name, ino, spare), Added(Lookup(d.store.disk.tree, h(name)).None?))
    case DeleteName(name) => (CachedDelete(t, h, d, name), Deleted)
    case RenameName(o, n, spare) =>
      (CachedRename(t, h, d, o, n, Search(h, d.store, o), spare), RenameWas(RenameCheck(h, d.store, n)))
    case FindName(name) => (d, Found(CachedSearch(h, d, name)))
  }

  lemma StepGood(t: nat, h: Hash, s: Store, op: DirOp)
    requires Good(t, h, s) && Issued(t, h, s, op)
    ensures Good(t, h, Step(t, h, s, op).0)
  {
    hide Good, Add, Delete, Rename, Search;
    match op
    case AddName(name, ino, spare) => AddGood(t, h, s, name, ino, spare);
    case DeleteName(name) => DeleteGood(t, h, s, name);
    case RenameName(o, n, spare) => RenameGood(t, h, s, o, n, spare, o);
    case FindName(name) =>
  }

  lemma CachedStepRefines(t: nat, h: Hash, d: CachedDir, op: DirOp)
    requires Ok(t, h, d) && Issued(t, h, d.store, op)
    ensures var (d', a) := CachedStep(t, h, d, op); var (s', b) := Step(t, h, d.store, op);
            Ok(t, h, d') && d'.store == s' && a == b
  {
    hide Good, CacheOk, Add, Delete, Search, CachedAdd, CachedDelete, CachedSearch, Lookup;
    match op
    case AddName(name, ino, spare) => CachedAddOk(t, h, d, name, ino, spare);
    case DeleteName(name) => CachedDeleteOk(t, h, d, name);
    case RenameName(o, n, spare) =>
      var ino := Search(h, d.store, o);
      CachedAddOk(t, h, d, n, ino, spare);
      CachedDeleteOk(t, h, CachedAdd(t, h, d, n, ino, spare), o);
    case FindName(name) => CachedSearchIs(t, h, d, name);
  }

  ghost predicate IssuedAll(t: nat, h: Hash, s: Store, ops: seq<DirOp>)
    requires Good(t, h, s)
    decreases |ops|
  {
    ops == [] ||
    (Issued(t, h, s, ops[0]) && (StepGood(t, h, s, ops[0]); IssuedAll(t, h, Step(t, h, s, ops[0]).0, ops[1..])))
  }

  ghost function Run(t: nat, h: Hash, s: Store, ops: seq<DirOp>): (Store, seq<Answer>)
    requires Good(t, h, s) && IssuedAll(t, h, s, ops)
    decreases |ops|
  {
    if ops == [] then (s, [])
    else
      StepGood(t, h, s, ops[0]);
      var (s', a) := Step(t, h, s, ops[0]);
      var (s'', rest) := Run(t, h, s', ops[1..]);
      (s'', [a] + rest)
  }

  ghost function CachedRun(t: nat, h: Hash, d: CachedDir, ops: seq<DirOp>): (CachedDir, seq<Answer>)
    requires Ok(t, h, d) && IssuedAll(t, h, d.store, ops)
    decreases |ops|
  {
    if ops == [] then (d, [])
    else
      StepGood(t, h, d.store, ops[0]);
      CachedStepRefines(t, h, d, ops[0]);
      var (d', a) := CachedStep(t, h, d, ops[0]);
      var (d'', rest) := CachedRun(t, h, d', ops[1..]);
      (d'', [a] + rest)
  }

  /** Over every run, also past the cap on cached blocks, the cached directory gives the
      answers of the uncached one and leaves the same directory; entries and name records
      stay in bijection, the cached tree a submap, the block counter exact. */
  lemma {:induction false} CachedRunRefines(t: nat, h: Hash, d: CachedDir, ops: seq<DirOp>)
    requires Ok(t, h, d) && IssuedAll(t, h, d.store, ops)
    ensures Ok(t, h, CachedRun(t, h, d, ops).0)
    ensures CachedRun(t, h, d, ops).0.store == Run(t, h, d.store, ops).0
    ensures CachedRun(t, h, d, ops).1 == Run(t, h, d.store, ops).1
    decreases |ops|
  {
    hide Good, CacheOk, CachedStep, Step, Issued;
    if ops != [] {
      StepGood(t, h, d.store, ops[0]);
      CachedStepRefines(t, h, d, ops[0]);
      CachedRunRefines(t, h, CachedStep(t, h, d, ops[0]).0, ops[1..]);
    }
  }

  /** A new directory and its cache entry, as basicbtfs_cache_add_dir makes it. */
  lemma FreshOk(t: nat, h: Hash, nameBno: nat)
    requires 2 <= t
    ensures var s := Store(BTreeRuns.EMPTY, Names([nameBno], [[]]));
            Ok(t, h, CachedDir(s, None)) && Ok(t, h, CachedDir(s, Some(Cache(Node([], []), 0, 5, 1))))
  {
    BTreeRuns.EmptyValid(t);
    assert Flat(Node([], [])) == [];
    LeafSize(Node([], []));
  }
}
