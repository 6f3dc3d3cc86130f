/** The directory operations on the blocks themselves (BasicBTFSNC/dir.c; the disk part of
    dir.c), proved to do what Directory says. */
module DirectoryOps {
  import opened Entries
  import opened BTree
  import BTreeDelete
  import BTreeRuns
  import opened Blocks
  import opened Bitmap
  import opened NameRecords
  import NameList
  import opened DiskTree
  import opened DiskDelete
  import DiskRoot
  import opened LookupSlots
  import opened Directory
  import NameBlocks
  import Listing

  /** The volume and the name blocks hold the directory s of inode ino, its tree at loc. */
  ghost predicate Represents(v: Volume, names: NameList.Names, ino: nat, s: Store, loc: Loc)
    reads v, v.alloc, v.alloc.bits, names
  {
    && v.Ready() && v.Stored(loc, s.disk.tree) && ino in v.iBno && v.iBno[ino] == loc.bno
    && RootBlock(v.blocks, loc.bno, ino, s)
    && NameList.Listed(names.blocks, s.names.bnos, s.names.recs)
    && Held(s.names.bnos, v.alloc.Used(), Foot(loc))
  }

  ghost predicate RootBlock(d: Disk, b: nat, ino: nat, s: Store) {
    && b in d && d[b].TreeBlock? && d[b].node.root && d[b].node.parent == ino && s.names.bnos != []
    && d[b].node.treeName == s.names.bnos[0] && d[b].node.nrOfFiles == s.disk.nrOfFiles % U32
  }

  /** The name blocks are allocated and not part of the tree. */
  ghost predicate Held(bnos: seq<nat>, used: set<nat>, foot: set<nat>) {
    forall b | b in bnos :: b in used && b !in foot
  }

  /** basicbtfs_search_entry of the version without a cache: an inode number, or 0. Repaired: the
      lookup has the bound on index that deletion has (SearchAsWritten is the lookup without it). */
  method SearchEntry(v: Volume, names: NameList.Names, h: Hash, ino: nat, name: seq<nat>, ghost s: Store,
                     ghost loc: Loc)
    returns (r: nat)
    requires Represents(v, names, ino, s, loc)
    ensures r == Search(h, s, name)
  {
    hide Rep, NameList.Listed;
    var e := LookupWithEntry(v, v.iBno[ino], h(name), loc, s.disk.tree);
    r := if e.Some? then e.value.ino else 0;
  }

  /** The same lookup as it is written: right exactly when nothing on the search path is misread,
      or what is misread happens to give the same inode number. */
  method SearchAsWritten(v: Volume, names: NameList.Names, h: Hash, ino: nat, name: seq<nat>, ghost s: Store,
                         ghost loc: Loc)
    returns (r: nat)
    requires Represents(v, names, ino, s, loc)
    ensures r == AnswerOf(Misread(v.blocks, v.t, loc, s.disk.tree, h(name)), Lookup(s.disk.tree, h(name)))
    ensures r == Search(h, s, name) <==>
            var m := Misread(v.blocks, v.t, loc, s.disk.tree, h(name));
            m.None? || m.value.slot.ino == Search(h, s, name)
  {
    hide Rep, NameList.Listed;
    r := NodeLookup(v, v.iBno[ino], h(name), loc, s.disk.tree);
  }

  /** The test for an existing name as add_entry and update_entry write it: a name counts as
      taken exactly if it is there, unless a misread slot says otherwise. */
  method TakenAsWritten(v: Volume, names: NameList.Names, h: Hash, ino: nat, name: seq<nat>, ghost s: Store,
                        ghost loc: Loc)
    returns (taken: bool)
    requires Represents(v, names, ino, s, loc) && Good(v.t, h, s)
    ensures (taken <==> Lookup(s.disk.tree, h(name)).Some?) <==>
            var m := Misread(v.blocks, v.t, loc, s.disk.tree, h(name));
            m.None? || (IsIno(m.value.slot.ino) <==> Lookup(s.disk.tree, h(name)).Some?)
  {
    hide Rep, NameList.Listed, Addressed, BTreeRuns.Valid;
    var ret := NodeLookup(v, v.iBno[ino], h(name), loc, s.disk.tree);
    FoundIsIno(v.t, h, s, name);
    taken := 0 < ret < 0x8000_0000;
  }

  /** basicbtfs_add_entry: refused when the hash is taken, otherwise the record, then the
      tree. Repaired: the test has the bound on index (TakenAsWritten is the test without it). */
  method AddEntry(v: Volume, names: NameList.Names, h: Hash, ino: nat, name: seq<nat>, newIno: nat, ghost s: Store,
                  ghost loc: Loc)
    returns (ok: bool, e: Entry, grew: bool, ghost loc': Loc, ghost spare: nat)
    requires Represents(v, names, ino, s, loc) && Good(v.t, h, s) && IsIno(newIno) && |name| <= 255
    requires s.disk.height + 3 <= |v.alloc.Free()|
    modifies v`blocks, v`iBno, v.alloc, v.alloc.bits, names
    ensures ok <==> Lookup(s.disk.tree, h(name)).None?
    ensures spare !in s.names.bnos && Represents(v, names, ino, Add(v.t, h, s, name, newIno, spare), loc')
    ensures |old(v.alloc.Free())| <= |v.alloc.Free()| + s.disk.height + 3
    ensures ok ==>
              && |s.names.bnos| == |s.names.recs| && e == NewEntry(h, s.names, name, newIno, spare)
              && (grew <==> Slot(s.names, |name| + 1) == |s.names.recs|)
  {
    hide Rep, RepAll, Foot, FootAll, Apart, ApartAll, SetBits, FreeBits, Took, BTreeRuns.Valid, BTreeRuns.Contents,
         Addressed, NameList.Listed, Shape, BTreeRuns.InsertTree, NameList.FirstWithRoom, OffsetOf, Lookup, Splits;
    GoodShape(v.t, h, s);
    var nameBno := v.blocks[v.iBno[ino]].node.treeName;
    var found := LookupWithEntry(v, v.iBno[ino], h(name), loc, s.disk.tree);
    FoundIsIno(v.t, h, s, name);
    if found.Some? && 0 < found.value.ino {
      ok, grew, loc', e := false, false, loc, ZERO_ENTRY;
      spare := NameList.Unlisted(s.names.bnos);
      return;
    }
    ghost var used, free, d := v.alloc.Used(), v.alloc.Free(), v.blocks;
    var ret, bno, index;
    ret, bno, index, grew, spare := names.InsertName(v.alloc, nameBno, newIno, name, s.names.bnos, s.names.recs);
    ghost var mid := v.alloc.Used();
    NameBlockTaken(used, free, mid, v.alloc.Free(), spare, s.names, |name| + 1, s.disk.height);
    e := Entry(newIno, h(name), bno, index);
    assert e == NewEntry(h, s.names, name, newIno, spare);
    RoomEnough(v.t, s.disk.tree, s.disk.height, e);
    ok, loc' := v.NodeInsert(ino, v.iBno[ino], e, loc, s.disk.tree, s.disk.height);
    RootAdded(d, v.blocks, loc.bno, loc'.bno, ino, s, e, v.t, PlacedNames(s.names, RecordOf(name, newIno), spare));
    StillHeld(s.names, |name| + 1, spare, used, mid, v.alloc.Used(), Foot(loc), Foot(loc'));
  }

  /** After the name is stored there are still height + 2 free blocks. */
  lemma NameBlockTaken(used: set<nat>, free: set<nat>, used': set<nat>, free': set<nat>, spare: nat, nm: Names,
                       len: nat, height: nat)
    requires height + 3 <= |free|
    requires Slot(nm, len) < |nm.recs| ==> used' == used && free' == free
    requires Slot(nm, len) >= |nm.recs| ==> spare in free && free' == free - {spare} && used' == used + {spare}
    ensures height + 2 <= |free'| && |free| <= |free'| + 1 && used <= used'
  {
    hide NameList.FirstWithRoom;
  }

  /** The root block after an insertion. */
  lemma RootAdded(d: Disk, e: Disk, b: nat, c: nat, ino: nat, s: Store, x: Entry, t: nat, nm: Names)
    requires RootBlock(d, b, ino, s) && RootCarried(d, b, e, c, ino, 1)
    requires nm.bnos != [] && nm.bnos[0] == s.names.bnos[0] && BTreeRuns.Valid(t, s.disk)
    ensures RootBlock(e, c, ino, Store(BTreeRuns.Insert(t, s.disk, x), nm))
  {
    hide BTreeRuns.Valid, BTreeRuns.InsertTree;
    DiskRoot.ModAdd(s.disk.nrOfFiles, 1);
  }

  lemma StillHeld(nm: Names, len: nat, spare: nat, used: set<nat>, mid: set<nat>, used': set<nat>, foot: set<nat>,
                  foot': set<nat>)
    requires |nm.bnos| == |nm.recs| && Held(nm.bnos, used, foot) && foot <= used && used <= mid <= used'
             && foot' == foot + (used' - mid)
    requires Slot(nm, len) >= |nm.recs| ==> spare in mid && spare !in used
    ensures Held(NameList.PlacedBlocks(nm.bnos, Slot(nm, len), spare), used', foot')
  {
    hide NameList.FirstWithRoom;
  }

  /** basicbtfs_delete_entry, for a name that is there. */
  method DeleteEntry(v: Volume, names: NameList.Names, h: Hash, ino: nat, name: seq<nat>, ghost s: Store,
                     ghost loc: Loc)
    returns (ghost loc': Loc)
    requires Represents(v, names, ino, s, loc) && Good(v.t, h, s) && Lookup(s.disk.tree, h(name)).Some?
    modifies v`blocks, v`iBno, v.alloc, v.alloc.bits, names
    ensures Represents(v, names, ino, Delete(v.t, h, s, name), loc')
    ensures loc'.bno != loc.bno ==> loc.bno in v.alloc.Used()
    ensures |old(v.alloc.Free())| <= |v.alloc.Free()|
  {
    hide Rep, RepAll, Foot, FootAll, Apart, ApartAll, SetBits, FreeBits, BTreeRuns.Valid, BTreeRuns.Contents,
         Addressed, NameList.Listed, Shape, BTreeRuns.DeleteTree, OffsetOf, Lookup, BTreeDelete.Merges, Shrunk,
         RootCarried, Held, Erased, NameRecords.Live;
    GoodShape(v.t, h, s);
    ghost var used, d := v.alloc.Used(), v.blocks;
    var rootBno := v.iBno[ino];
    var found := LookupWithEntry(v, rootBno, h(name), loc, s.disk.tree);
    var e := found.value;
    loc' := DiskRoot.DeleteEntry(v, ino, rootBno, h(name), loc, s.disk.tree, s.disk.height);
    ghost var i, k := RecordOfEntry(v.t, h, s, name);
    names.DeleteName(e.nameBno, e.blockIndex, s.names.bnos, s.names.recs, i, k);
    RootRemoved(d, v.blocks, loc.bno, loc'.bno, ino, s, h(name), v.t, Erased(s.names, e.nameBno, e.blockIndex));
    OwnBlock(loc);
    HeldAfter(s.names.bnos, used, v.alloc.Used(), Foot(loc), Foot(loc'), loc.bno, loc'.bno,
              BTreeDelete.Merges(v.t, s.disk.tree, s.disk.height, h(name)));
    FreeGrows(old(v.alloc.bits[..]), v.alloc.bits[..]);
  }

  /** The record an entry points at. */
  lemma RecordOfEntry(t: nat, h: Hash, s: Store, name: seq<nat>) returns (i: nat, k: nat)
    requires Good(t, h, s) && Lookup(s.disk.tree, h(name)).Some?
    ensures var e := Lookup(s.disk.tree, h(name)).value;
            && |s.names.bnos| == |s.names.recs| && LiveAt(s.names.recs, i, k)
            && e.nameBno == s.names.bnos[i] && e.blockIndex == OffsetOf(s.names.recs[i], k)
            && Erased(s.names, e.nameBno, e.blockIndex)
               == s.names.(recs := s.names.recs[i := s.names.recs[i][k := s.names.recs[i][k].(ino := 0)]])
  {
    hide BTreeRuns.Valid, BTreeRuns.Contents, OffsetOf, Lookup;
    BTreeRuns.LookupContents(t, s.disk, h(name));
    var m := BTreeRuns.Contents(s.disk);
    assert HasRecord(h, m[h(name)], s.names, h(name));
    i, k :| LiveAt(s.names.recs, i, k) && m[h(name)] == EntryFor(h, s.names, i, k);
    BlockIndexIs(s.names.bnos, i);
    RecordIndexIs(s.names.recs[i], k, |s.names.recs[i]|);
  }

  lemma RootRemoved(d: Disk, e: Disk, b: nat, c: nat, ino: nat, s: Store, x: nat, t: nat, nm: Names)
    requires RootBlock(d, b, ino, s) && RootCarried(d, b, e, c, ino, -1)
    requires nm.bnos == s.names.bnos && BTreeRuns.Valid(t, s.disk)
    ensures RootBlock(e, c, ino, Store(BTreeRuns.DeleteEntry(t, s.disk, x), nm))
  {
    hide BTreeRuns.Valid, BTreeRuns.DeleteTree;
    DiskRoot.ModAdd(s.disk.nrOfFiles, -1);
  }

  lemma HeldAfter(bnos: seq<nat>, used: set<nat>, used': set<nat>, foot: set<nat>, foot': set<nat>, b: nat, b': nat,
                  n: nat)
    requires Held(bnos, used, foot) && b in foot && Shrunk(used, used', foot, foot' + if b' == b then {} else {b}, n)
    ensures Held(bnos, used', foot') && used' <= used
  {
  }

  lemma GoodShape(t: nat, h: Hash, s: Store)
    requires Good(t, h, s)
    ensures 2 <= t && Shape(t, s.disk.tree, s.disk.height) && (0 < s.disk.height ==> 1 <= |s.disk.tree.keys|)
    ensures |s.names.bnos| == |s.names.recs| >= 1
  {
  }

  lemma FoundIsIno(t: nat, h: Hash, s: Store, name: seq<nat>)
    requires Good(t, h, s)
    ensures Lookup(s.disk.tree, h(name)).Some? ==> IsIno(Lookup(s.disk.tree, h(name)).value.ino)
  {
    hide BTreeRuns.Valid, BTreeRuns.Contents, OffsetOf, Lookup;
    BTreeRuns.LookupContents(t, s.disk, h(name));
    var m := BTreeRuns.Contents(s.disk);
    if h(name) in m {
      assert HasRecord(h, m[h(name)], s.names, h(name));
      var i: nat, k: nat :| LiveAt(s.names.recs, i, k) && m[h(name)] == EntryFor(h, s.names, i, k);
      assert Recorded(h, m, s.names, i, k);
    }
  }

  /** basicbtfs_update_entry within one directory, repaired like AddEntry. */
  method UpdateEntry(v: Volume, names: NameList.Names, h: Hash, ino: nat, oldName: seq<nat>, newName: seq<nat>,
                     oldIno: nat, ghost s: Store, ghost loc: Loc)
    returns (ret: RenameResult, ghost loc': Loc, ghost spare: nat)
    requires Represents(v, names, ino, s, loc) && Good(v.t, h, s) && IsIno(oldIno) && |newName| <= 255
    requires Search(h, s, oldName) == oldIno && s.disk.height + 3 <= |v.alloc.Free()|
    modifies v`blocks, v`iBno, v.alloc, v.alloc.bits, names
    ensures ret == RenameCheck(h, s, newName) && spare !in s.names.bnos
    ensures var m := BTreeRuns.Contents(s.disk);
            (ret.Exists? <==> h(newName) in m) && (ret.Renamed? <==> MayRename(m, h(newName)))
    ensures |old(v.alloc.Free())| <= |v.alloc.Free()| + s.disk.height + 3
    ensures Represents(v, names, ino, Rename(v.t, h, s, oldName, newName, oldIno, spare), loc')
  {
    hide Rep, Foot, Apart, SetBits, FreeBits, BTreeRuns.Valid, Addressed, NameList.Listed, Shape, Add, Delete, Lookup;
    var found := LookupWithEntry(v, v.iBno[ino], h(newName), loc, s.disk.tree);
    FoundIsIno(v.t, h, s, newName);
    RenameCheckIs(v.t, h, s, newName);
    loc' := loc;
    spare := NameList.Unlisted(s.names.bnos);
    if found.Some? && 0 < found.value.ino {
      return Exists, loc', spare;
    }
    if v.blocks[v.iBno[ino]].node.nrOfFiles >= ENTRIES_PER_DIR {
      return TooMany, loc', spare;
    }
    var ok, e, grew;
    ok, e, grew, loc', spare := AddEntry(v, names, h, ino, newName, oldIno, s, loc);
    AddGood(v.t, h, s, newName, oldIno, spare);
    ghost var a := Add(v.t, h, s, newName, oldIno, spare);
    OldStillThere(v.t, h, s, oldName, newName, oldIno, spare);
    loc' := DeleteEntry(v, names, h, ino, oldName, a, loc');
    ret := Renamed;
  }

  /** basicbtfs_iterate of the version without a cache, behind the two dots; room is how many names
      the caller takes. From the beginning it hands out each name once, with the inode that search
      gives for it; taken to the end that is the whole directory. */
  method ListEntries(v: Volume, names: NameList.Names, h: Hash, ino: nat, pos: nat, room: nat, ghost s: Store,
                     ghost loc: Loc)
    returns (out: seq<NameBlocks.Item>)
    requires Represents(v, names, ino, s, loc) && Good(v.t, h, s)
    ensures pos > ENTRIES_PER_DIR ==> out == []
    ensures pos <= ENTRIES_PER_DIR ==>
              var all := NameList.Emitted(s.names.recs, pos, 0);
              out == all[..if room < |all| then room else |all|]
    ensures pos == 0 ==>
              && Listing.OneEach(h, out) && (forall it | it in out :: it.ino == Search(h, s, it.name) != 0)
              && |out| == (var n := |BTreeRuns.Contents(s.disk)|; if room < n then room else n)
              && (room >= |BTreeRuns.Contents(s.disk)| ==> Listing.ByHash(h, out) == Listing.Shows(h, s))
  {
    hide Rep, NameList.Listed, BTreeRuns.Valid, BTreeRuns.Contents, Addressed, Search, NameList.Emitted,
         Listing.ByHash;
    Listing.ListingIs(v.t, h, s);
    if pos + 2 > ENTRIES_PER_DIR + 2 {
      return [];
    }
    var nameBno := v.blocks[v.iBno[ino]].node.treeName;
    out := names.Iterate(nameBno, pos, room, s.names.bnos, s.names.recs);
    assert Listing.Shown(s)[..|Listing.Shown(s)|] == Listing.Shown(s);
  }

  lemma OldStillThere(t: nat, h: Hash, s: Store, oldName: seq<nat>, newName: seq<nat>, ino: nat, spare: nat)
    requires Good(t, h, s) && IsIno(ino) && spare !in s.names.bnos && Search(h, s, oldName) == ino
    ensures Good(t, h, Add(t, h, s, newName, ino, spare))
            && Lookup(Add(t, h, s, newName, ino, spare).disk.tree, h(oldName)).Some?
  {
    hide BTreeRuns.Valid, BTreeRuns.Contents, Addressed, Add;
    AddGood(t, h, s, newName, ino, spare);
    SearchIs(t, h, s, oldName);
    BTreeRuns.LookupContents(t, Add(t, h, s, newName, ino, spare).disk, h(oldName));
  }
}
