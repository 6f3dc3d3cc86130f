/** The directory operations with the cache (dir.c): the tree and the names on disk, the nodes in
    memory, and whole runs of operations on all three. */
module CachedOps {
  import opened Entries
  import opened BTree
  import BTreeDelete
  import BTreeRuns
  import opened Blocks
  import opened Bitmap
  import opened DeleteLayout
  import NameList
  import opened Room
  import opened DiskTree
  import DiskDelete
  import opened Directory
  import opened DirectoryOps
  import opened DirectoryCache
  import opened NameBlocks
  import opened Listing
  import opened NodeCache

  /** The nodes in memory are the cached directory c: its tree at kloc, its list of nodes and its
      count of blocks. */
  ghost predicate Cached(k: DirCache, kloc: Loc, c: Cache)
    reads k
  {
    k.Mirrors(kloc, c.tree) && c.nrOfBlocks == k.nrOfBlocks && c.nameBlocks == |k.nameBlocks|
  }

  /** Disk, names and memory hold the directory (s, c) of inode ino. */
  ghost predicate Both(v: Volume, names: NameList.Names, k: DirCache, h: Hash, ino: nat, s: Store, loc: Loc, c: Cache,
                       kloc: Loc)
    reads v, v.alloc, v.alloc.bits, names, k
  {
    && Represents(v, names, ino, s, loc) && Cached(k, kloc, c) && k.t == v.t
    && Ok(v.t, h, CachedDir(s, Some(c))) && OfChain(k.nameBlocks, s.names.bnos)
  }

  /** The cached name blocks are blocks of the chain, each once. */
  ghost predicate OfChain(cached: seq<nat>, bnos: seq<nat>) {
    Once(cached) && forall b | b in cached :: b in bnos
  }

  // ------------------------------------------------------ list and counter

  lemma {:induction false} FootSize(loc: Loc, tr: Tree)
    requires Fits(loc, tr) && Apart(loc)
    ensures |Foot(loc)| == Size(tr)
    decreases tr, 1
  {
    hide Size;
    FootSizeAll(loc.kids, tr.kids);
    assert Foot(loc) == {loc.bno} + FootAll(loc.kids);
    SizeIs(tr);
  }

  lemma SizeIs(tr: Tree)
    ensures Size(tr) == 1 + SizeAll(tr.kids)
  {
  }

  lemma {:induction false} FootSizeAll(locs: seq<Loc>, trs: seq<Tree>)
    requires |locs| == |trs| && ApartAll(locs) && forall i | 0 <= i < |trs| :: Fits(locs[i], trs[i])
    ensures |FootAll(locs)| == SizeAll(trs)
    decreases trs, 0
  {
    if locs == [] {
      assert FootAll(locs) == {};
    } else {
      FootSize(locs[0], trs[0]);
      FootSizeAll(locs[1..], trs[1..]);
      assert |Foot(locs[0]) + FootAll(locs[1..])| == |Foot(locs[0])| + |FootAll(locs[1..])|;
    }
  }

  lemma {:induction false} OnceSize(s: seq<nat>, m: set<nat>)
    requires Once(s) && forall b :: b in s <==> b in m
    ensures |s| == |m|
  {
    if s == [] {
      assert m == {};
    } else {
      var rest := s[1..];
      assert s == [s[0]] + rest && forall i | 0 <= i < |rest| :: rest[i] == s[i + 1];
      OnceSize(rest, m - {s[0]});
    }
  }

  /** What the list of nodes is: every node reachable from its head, once; and the counter is
      their number, that of the cached name blocks, and three. */
  lemma ListExact(k: DirCache, kloc: Loc, tr: Tree)
    requires k.Mirrors(kloc, tr)
    ensures k.nodes != [] && forall b :: b in k.nodes <==> Reachable(k.heap, k.nodes[0], b)
    ensures Once(k.nodes) && |k.nodes| == Size(tr) && k.nrOfBlocks == Size(tr) + |k.nameBlocks| + 3
  {
    hide Rep, Foot, Apart, Size;
    RepFits(k.heap, k.t, kloc, tr);
    FootSize(kloc, tr);
    OnceSize(k.nodes, k.heap.Keys);
    forall b
      ensures b in k.nodes <==> Reachable(k.heap, k.nodes[0], b)
    {
      if b in k.nodes {
        FootReachable(k.heap, k.t, kloc, tr, b);
      }
      if Reachable(k.heap, k.nodes[0], b) {
        var p :| Path(k.heap, p) && p[0] == k.nodes[0] && p[|p| - 1] == b;
        ReachableFoot(k.heap, k.t, kloc, tr, p);
      }
    }
  }

  // -------------------------------------------------------------- operations

  /** basicbtfs_search_entry: the cached tree first, the disk tree if it does not know. */
  method SearchEntry(v: Volume, names: NameList.Names, k: DirCache, h: Hash, ino: nat, name: seq<nat>, ghost s: Store,
                     ghost loc: Loc, ghost c: Cache, ghost kloc: Loc)
    returns (r: nat)
    requires Both(v, names, k, h, ino, s, loc, c, kloc)
    ensures r == CachedSearch(h, CachedDir(s, Some(c)), name)
  {
    hide Rep, Foot, Apart, Addressed, BTreeRuns.Valid, BTreeRuns.Contents, NameList.Listed, Lookup, Once;
    var e := k.Find(k.nodes[0], h(name), kloc, c.tree);
    CachedIno(v.t, h, s, c, name);
    if e.Some? && 0 < e.value.ino {
      return e.value.ino;
    }
    r := DirectoryOps.SearchEntry(v, names, h, ino, name, s, loc);
  }

  /** A cached entry has an inode number, as on disk. */
  lemma CachedIno(t: nat, h: Hash, s: Store, c: Cache, name: seq<nat>)
    requires Ok(t, h, CachedDir(s, Some(c)))
    ensures Lookup(c.tree, h(name)).Some? ==> IsIno(Lookup(c.tree, h(name)).value.ino)
  {
    hide Addressed, BTreeRuns.Valid, BTreeRuns.Contents, Lookup;
    FoundIsIno(t, h, s, name);
    FoundInMap(t, h, s, name);
    LookupIsFind(t, c.tree, c.height, h(name));
    FindIsDict(Flat(c.tree), h(name));
  }

  /** basicbtfs_add_entry: on disk, and in memory too while the directory is small. The number of
      cached blocks is read before anything is inserted. */
  method AddEntry(v: Volume, names: NameList.Names, k: DirCache, h: Hash, ino: nat, name: seq<nat>, newIno: nat,
                  ghost s: Store, ghost loc: Loc, ghost c: Cache, ghost kloc: Loc)
    returns (ok: bool, ghost s': Store, ghost loc': Loc, ghost c': Cache, ghost kloc': Loc, ghost spare: nat)
    requires Both(v, names, k, h, ino, s, loc, c, kloc) && IsIno(newIno) && |name| <= 255
    requires s.disk.height + 3 <= |v.alloc.Free()|
    modifies v`blocks, v`iBno, v.alloc, v.alloc.bits, names, k
    ensures spare !in s.names.bnos
            && CachedDir(s', Some(c')) == CachedAdd(v.t, h, CachedDir(s, Some(c)), name, newIno, spare)
    ensures Both(v, names, k, h, ino, s', loc', c', kloc') && (ok <==> Lookup(s.disk.tree, h(name)).None?)
    ensures |old(v.alloc.Free())| <= |v.alloc.Free()| + s.disk.height + 3 && s'.disk.height <= s.disk.height + 1
    ensures |s.names.bnos| <= |s'.names.bnos|
    ensures k.nameBlocks == (if Takes(h, CachedDir(s, Some(c)), name) then s'.names.bnos[|s.names.bnos|..] else [])
                            + old(k.nameBlocks)
  {
    hide Rep, Foot, Apart, Addressed, BTreeRuns.Valid, BTreeRuns.Contents, NameList.Listed, Lookup, Once, Sorted, Flat,
         Shape, BTreeRuns.InsertTree, RoomFor, FreeBits, SetBits, NameList.FirstWithRoom, RootBlock, Held, Submap,
         Size, Dict;
    var nrOfBlocks := k.nrOfBlocks;
    var e, grew;
    ok, e, grew, loc', spare := DirectoryOps.AddEntry(v, names, h, ino, name, newIno, s, loc);
    s' := Add(v.t, h, s, name, newIno, spare);
    AddedHeight(v.t, h, s, name, newIno, spare);
    CachedAddOk(v.t, h, CachedDir(s, Some(c)), name, newIno, spare);
    FoundInMap(v.t, h, s, name);
    ChainAfter(v.t, h, s, name, newIno, spare, k.nameBlocks);
    c', kloc' := c, kloc;
    if ok && nrOfBlocks < MAX_CACHE_BLOCKS {
      if grew {
        k.AddNameBlock(e.nameBno);
      }
      CacheShape(v.t, h, s, c);
      kloc' := k.Insert(k.nodes[0], e, kloc, c.tree, c.height);
      c' := CacheInsert(v.t, c, e, grew);
    }
  }

  /** The chain after an insertion, and the cached name blocks with the block hung on. */
  lemma ChainAfter(t: nat, h: Hash, s: Store, name: seq<nat>, ino: nat, spare: nat, cached: seq<nat>)
    requires Good(t, h, s) && spare !in s.names.bnos && OfChain(cached, s.names.bnos)
    ensures var bnos, s' := s.names.bnos, Add(t, h, s, name, ino, spare);
            && |bnos| <= |s'.names.bnos| && OfChain(cached, s'.names.bnos)
            && (Lookup(s.disk.tree, h(name)).None? && Slot(s.names, |name| + 1) == |s.names.recs| ==>
                  && NewEntry(h, s.names, name, ino, spare).nameBno == spare
                  && s'.names.bnos[|bnos|..] == [spare] && OfChain([spare] + cached, s'.names.bnos))
            && (Lookup(s.disk.tree, h(name)).Some? || Slot(s.names, |name| + 1) < |s.names.recs| ==>
                  s'.names.bnos[|bnos|..] == [])
  {
    hide Lookup, NameList.FirstWithRoom, BTreeRuns.Valid, BTreeRuns.Contents;
  }

  lemma AddedHeight(t: nat, h: Hash, s: Store, name: seq<nat>, ino: nat, spare: nat)
    requires Good(t, h, s)
    ensures Add(t, h, s, name, ino, spare).disk.height <= s.disk.height + 1
  {
    hide Addressed, BTreeRuns.Valid, BTreeRuns.Contents, Lookup;
    GoodShape(t, h, s);
  }

  lemma CacheShape(t: nat, h: Hash, s: Store, c: Cache)
    requires Ok(t, h, CachedDir(s, Some(c)))
    ensures TreeOk(t, c.tree, c.height)
  {
  }

  /** basicbtfs_delete_entry, for a name that is there: the cached tree is asked to delete it whether
      or not it knows it. */
  method DeleteEntry(v: Volume, names: NameList.Names, k: DirCache, h: Hash, ino: nat, name: seq<nat>, ghost s: Store,
                     ghost loc: Loc, ghost c: Cache, ghost kloc: Loc)
    returns (ghost s': Store, ghost loc': Loc, ghost c': Cache, ghost kloc': Loc)
    requires Both(v, names, k, h, ino, s, loc, c, kloc) && Lookup(s.disk.tree, h(name)).Some?
    modifies v`blocks, v`iBno, v.alloc, v.alloc.bits, names, k
    ensures CachedDir(s', Some(c')) == CachedDelete(v.t, h, CachedDir(s, Some(c)), name)
    ensures Both(v, names, k, h, ino, s', loc', c', kloc')
    ensures |old(v.alloc.Free())| <= |v.alloc.Free()| && s'.disk.height <= s.disk.height
  {
    hide Rep, Foot, Apart, Addressed, BTreeRuns.Valid, BTreeRuns.Contents, NameList.Listed, Lookup, Once, Sorted, Flat,
         Shape, BTreeRuns.DeleteTree, BTreeDelete.Merges, BTreeDelete.Delete, FreeBits, SetBits, RootBlock, Held,
         Submap, Size, Dict;
    loc' := DirectoryOps.DeleteEntry(v, names, h, ino, name, s, loc);
    s' := Delete(v.t, h, s, name);
    DeletedHeight(v.t, h, s, name);
    CachedDeleteOk(v.t, h, CachedDir(s, Some(c)), name);
    CacheShape(v.t, h, s, c);
    GoneIs(v.t, c.tree, c.height, h(name));
    kloc' := k.DeleteEntry(k.nodes[0], h(name), kloc, c.tree, c.height);
    c' := CacheDelete(v.t, c, h(name));
  }

  lemma DeletedHeight(t: nat, h: Hash, s: Store, name: seq<nat>)
    requires Good(t, h, s)
    ensures Delete(t, h, s, name).disk.height <= s.disk.height
  {
    hide Addressed, BTreeRuns.Contents, Lookup, BTreeDelete.Delete;
    GoodShape(t, h, s);
  }

  lemma GoneIs(t: nat, tr: Tree, h: nat, x: nat)
    requires TreeOk(t, tr, h)
    ensures NodesGone(t, tr, h, x)
              == BTreeDelete.Merges(t, tr, h, x) + if BTreeRuns.DeleteHeight(t, tr, h, x) == h then 0 else 1
  {
    hide BTreeDelete.Delete, BTreeDelete.Merges, Flat, Sorted;
  }

  /** basicbtfs_update_entry within one directory. */
  method UpdateEntry(v: Volume, names: NameList.Names, k: DirCache, h: Hash, ino: nat, oldName: seq<nat>,
                     newName: seq<nat>, oldIno: nat, ghost s: Store, ghost loc: Loc, ghost c: Cache, ghost kloc: Loc)
    returns (ret: RenameResult, ghost s': Store, ghost loc': Loc, ghost c': Cache, ghost kloc': Loc, ghost spare: nat)
    requires Both(v, names, k, h, ino, s, loc, c, kloc) && IsIno(oldIno) && |newName| <= 255
    requires Search(h, s, oldName) == oldIno && s.disk.height + 3 <= |v.alloc.Free()|
    modifies v`blocks, v`iBno, v.alloc, v.alloc.bits, names, k
    ensures ret == RenameCheck(h, s, newName) && spare !in s.names.bnos
    ensures var m := BTreeRuns.Contents(s.disk);
            (ret.Exists? <==> h(newName) in m) && (ret.Renamed? <==> MayRename(m, h(newName)))
    ensures CachedDir(s', Some(c')) == CachedRename(v.t, h, CachedDir(s, Some(c)), oldName, newName, oldIno, spare)
    ensures Both(v, names, k, h, ino, s', loc', c', kloc')
    ensures |old(v.alloc.Free())| <= |v.alloc.Free()| + s.disk.height + 3 && s'.disk.height <= s.disk.height + 1
  {
    hide Rep, Foot, Apart, Addressed, BTreeRuns.Valid, BTreeRuns.Contents, NameList.Listed, Lookup, Once, FreeBits,
         SetBits, CacheOk, Add, Delete, CachedAdd, CachedDelete;
    var found := DiskDelete.LookupWithEntry(v, v.iBno[ino], h(newName), loc, s.disk.tree);
    FoundIsIno(v.t, h, s, newName);
    RenameCheckIs(v.t, h, s, newName);
    s', loc', c', kloc' := s, loc, c, kloc;
    spare := NameList.Unlisted(s.names.bnos);
    if found.Some? && 0 < found.value.ino {
      return Exists, s', loc', c', kloc', spare;
    }
    if v.blocks[v.iBno[ino]].node.nrOfFiles >= ENTRIES_PER_DIR {
      return TooMany, s', loc', c', kloc', spare;
    }
    var ok;
    ok, s', loc', c', kloc', spare := AddEntry(v, names, k, h, ino, newName, oldIno, s, loc, c, kloc);
    CachedAddOk(v.t, h, CachedDir(s, Some(c)), newName, oldIno, spare);
    OldStillThere(v.t, h, s, oldName, newName, oldIno, spare);
    s', loc', c', kloc' := DeleteEntry(v, names, k, h, ino, oldName, s', loc', c', kloc');
    ret := Renamed;
  }

  // -------------------------------------------------------------------- runs

  /** Names fit, and inode numbers are valid. */
  ghost predicate Fair(r: Request) {
    match r
    case Create(name, ino) => |name| <= 255 && IsIno(ino)
    case Move(_, newName) => |newName| <= 255
    case _ => true
  }

  /** The operation a request comes to on a directory that shows m: names are looked up before
      they are deleted or renamed, and that is all if and only if they are not there. */
  ghost predicate Comes(h: Hash, m: map<nat, Item>, r: Request, op: DirOp) {
    match r
    case Create(name, ino) => op.AddName? && op.name == name && op.ino == ino
    case Unlink(name) => op == if h(name) in m then DeleteName(name) else FindName(name)
    case Move(o, n) =>
      if h(o) in m then op.RenameName? && op.oldName == o && op.newName == n else op == FindName(o)
    case Locate(name) => op == FindName(name)
  }

  ghost predicate ComesAll(h: Hash, m: map<nat, Item>, rs: seq<Request>, ops: seq<DirOp>)
    decreases |rs|
  {
    && |rs| == |ops|
    && (rs != [] ==> Comes(h, m, rs[0], ops[0]) && ComesAll(h, Serving(h, m, rs[0]).0, rs[1..], ops[1..]))
  }

  lemma RequestServed(t: nat, h: Hash, s: Store, r: Request, op: DirOp)
    requires Good(t, h, s) && Issued(t, h, s, op) && Comes(h, Shows(h, s), r, op)
    ensures (Shows(h, Step(t, h, s, op).0), Step(t, h, s, op).1) == Serving(h, Shows(h, s), r)
  {
    hide Good, Step, Shows, Issued;
    StepServes(t, h, s, op);
  }

  /** Search finds what the listing shows. */
  lemma FoundShown(t: nat, h: Hash, s: Store, name: seq<nat>)
    requires Good(t, h, s)
    ensures Search(h, s, name) != 0 <==> h(name) in Shows(h, s)
  {
    hide Good, Shows, Search, BTreeRuns.Contents;
    SearchIs(t, h, s, name);
    ListingIs(t, h, s);
  }

  /** One request, on disk and in memory. */
  method Serve(v: Volume, names: NameList.Names, k: DirCache, h: Hash, ino: nat, r: Request, ghost s: Store,
               ghost loc: Loc, ghost c: Cache, ghost kloc: Loc)
    returns (a: Answer, ghost op: DirOp, ghost s': Store, ghost loc': Loc, ghost c': Cache, ghost kloc': Loc)
    requires Both(v, names, k, h, ino, s, loc, c, kloc) && Fair(r) && s.disk.height + 3 <= |v.alloc.Free()|
    modifies v`blocks, v`iBno, v.alloc, v.alloc.bits, names, k
    ensures Both(v, names, k, h, ino, s', loc', c', kloc') && Issued(v.t, h, s, op)
    ensures Comes(h, Shows(h, s), r, op) && (Shows(h, s'), a) == Serving(h, Shows(h, s), r)
    ensures CachedStep(v.t, h, CachedDir(s, Some(c)), op) == (CachedDir(s', Some(c')), a)
    ensures |old(v.alloc.Free())| <= |v.alloc.Free()| + s.disk.height + 3 && s'.disk.height <= s.disk.height + 1
  {
    hide Rep, Foot, Apart, Addressed, BTreeRuns.Valid, BTreeRuns.Contents, NameList.Listed, Lookup, Once, FreeBits,
         SetBits, CacheOk, Add, Delete, CachedAdd, CachedDelete, CachedRename, Represents, Cached, Shows, Serving;
    s', loc', c', kloc' := s, loc, c, kloc;
    match r {
      case Create(name, newIno) =>
        var ok;
        ghost var spare;
        ok, s', loc', c', kloc', spare := AddEntry(v, names, k, h, ino, name, newIno, s, loc, c, kloc);
        a, op := Added(ok), AddName(name, newIno, spare);
      case Unlink(name) =>
        var found := SearchEntry(v, names, k, h, ino, name, s, loc, c, kloc);
        CachedSearchIs(v.t, h, CachedDir(s, Some(c)), name);
        FoundShown(v.t, h, s, name);
        if found != 0 {
          s', loc', c', kloc' := DeleteEntry(v, names, k, h, ino, name, s, loc, c, kloc);
          a, op := Deleted, DeleteName(name);
        } else {
          a, op := Found(found), FindName(name);
        }
      case Move(o, n) =>
        var found := SearchEntry(v, names, k, h, ino, o, s, loc, c, kloc);
        CachedSearchIs(v.t, h, CachedDir(s, Some(c)), o);
        FoundIsIno(v.t, h, s, o);
        FoundShown(v.t, h, s, o);
        if found != 0 {
          var ret;
          ghost var spare;
          ret, s', loc', c', kloc', spare := UpdateEntry(v, names, k, h, ino, o, n, found, s, loc, c, kloc);
          a, op := RenameWas(ret), RenameName(o, n, spare);
        } else {
          a, op := Found(found), FindName(o);
        }
      case Locate(name) =>
        var found := SearchEntry(v, names, k, h, ino, name, s, loc, c, kloc);
        a, op := Found(found), FindName(name);
    }
    CachedStepRefines(v.t, h, CachedDir(s, Some(c)), op);
    RequestServed(v.t, h, s, r, op);
  }

  /** Blocks enough for n requests on a directory whose tree has height h. */
  function RequestRoom(h: nat, n: nat): nat
    decreases n
  {
    if n == 0 then 0 else h + 3 + RequestRoom(h + 1, n - 1)
  }

  lemma {:induction false} RequestRoomGrows(h: nat, g: nat, n: nat)
    requires h <= g
    ensures RequestRoom(h, n) <= RequestRoom(g, n)
    decreases n
  {
    if n > 0 {
      RequestRoomGrows(h + 1, g + 1, n - 1);
    }
  }

  /** Any run of requests: the answers, and what the directory shows at the end, are those of the
      finite map; they are those of the directory without a cache; disk and names hold it, and in
      memory the list of nodes is still every node reachable from its head, which is the root,
      while the counter counts (ListExact). */
  method ServeAll(v: Volume, names: NameList.Names, k: DirCache, h: Hash, ino: nat, rs: seq<Request>, ghost s: Store,
                  ghost loc: Loc, ghost c: Cache, ghost kloc: Loc)
    returns (answers: seq<Answer>, ghost ops: seq<DirOp>, ghost s': Store, ghost loc': Loc, ghost c': Cache,
             ghost kloc': Loc)
    requires Both(v, names, k, h, ino, s, loc, c, kloc) && (forall i | 0 <= i < |rs| :: Fair(rs[i]))
    requires RequestRoom(s.disk.height, |rs|) <= |v.alloc.Free()|
    modifies v`blocks, v`iBno, v.alloc, v.alloc.bits, names, k
    ensures Both(v, names, k, h, ino, s', loc', c', kloc')
    ensures (Shows(h, s'), answers) == ServingAll(h, Shows(h, s), rs)
    ensures ComesAll(h, Shows(h, s), rs, ops) && IssuedAll(v.t, h, s, ops)
    ensures (s', answers) == Run(v.t, h, s, ops)
    ensures CachedRun(v.t, h, CachedDir(s, Some(c)), ops) == (CachedDir(s', Some(c')), answers)
    decreases |rs|
  {
    hide Represents, Cached, Good, CacheOk, Step, CachedStep, Issued, Comes, FreeBits, Shows, Serving;
    s', loc', c', kloc' := s, loc, c, kloc;
    if rs == [] {
      answers, ops := [], [];
    } else {
      var a;
      ghost var op;
      a, op, s', loc', c', kloc' := Serve(v, names, k, h, ino, rs[0], s, loc, c, kloc);
      StepGood(v.t, h, s, op);
      CachedStepRefines(v.t, h, CachedDir(s, Some(c)), op);
      RequestRoomGrows(s'.disk.height, s.disk.height + 1, |rs| - 1);
      ghost var s1, c1 := s', c';
      var rest;
      ghost var more;
      rest, more, s', loc', c', kloc' := ServeAll(v, names, k, h, ino, rs[1..], s1, loc', c1, kloc');
      answers, ops := [a] + rest, [op] + more;
      assert ops[1..] == more;
      assert forall i | 0 <= i < |rs| - 1 :: rs[1..][i] == rs[i + 1];
    }
  }
}
