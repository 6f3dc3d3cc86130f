/** The first part of basicbtfs_defrag_file_table_block: a file's cluster table goes to the
    wanted block. */
module DefragTable {
  import opened Blocks
  import opened Bitmap
  import opened DiskTree
  import opened System
  import opened Relocate
  import opened DefragStep
  import opened Defrag
  import opened DefragNode
  import opened DefragTree
  import opened DefragEvict

  /** Table over whatever is at b: both copies, the eviction, and then the inode. */
  function TableOver(s: Sys, a: nat, b: nat, c: nat, run: nat): Sys
    requires IsTable(s.disk, a) && b in s.disk
  {
    var u := EvictCode(Copies(s, b, c, s.disk[a]), b, c, run);
    u.(iBno := u.iBno[s.disk[a].ino := b])
  }

  /** Block b belongs to the file whose table is at a. */
  predicate OwnData(s: Sys, a: nat, b: nat) {
    IsData(s.disk, b) && IsTable(s.disk, a) && b in s.info && s.info[b].ino == s.disk[a].ino
  }

  /** Evict first, then move the table. */
  lemma EvictThenTable(s: Sys, live: set<nat>, a: nat, b: nat, c: nat, run: nat)
    requires WellLinked(s, live) && a in live && IsTable(s.disk, a) && a != b && Evictable(s, live, b, c, run)
    ensures b in s.disk
    ensures var w := Evicted(s, b, c, run);
            && IsTable(w.disk, a) && w.disk[a].ino == s.disk[a].ino
            && Moved(OverMap(s, live, a, b, c, run), s, live, TablePatch(Put(w, b, w.disk[a]), s.disk[a].ino, b))
            && OverMap(s, live, a, b, c, run).Values == EvictMap(s, live, b, c, run).Values - {a} + {b}
  {
    hide WellLinked, Moved, Renamed, Evictable, EvictMap, Going, Coming, Evicted, TablePatch;
    ToEvict(s, live, b, c, run);
    var e, w := EvictMap(s, live, b, c, run), Evicted(s, b, c, run);
    EvictedMoved(s, live, b, c, run);
    EvictValues(s, live, b, c, run);
    NotGoing(s, live, a, b, c, run);
    MovedLinked(e, s, live, w);
    MovedAt(e, s, live, w, a);
    RenamedData(e, s.disk[a], w.disk[a]);
    RenamedTable(e, s.disk[a], w.disk[a]);
    MovedInjective(e, s, live, w);
    EvictFree(s, live, b, c, run);
    TableMoved(w, e.Values, a, b);
    MovedTwice(e, MoveOne(e.Values, a, b), s, live, w, TablePatch(Put(w, b, w.disk[a]), w.disk[a].ino, b));
    ComposeOne(e, live, a, b);
  }

  /** Moving a table as the source does it renames it consistently if and only if what is in
      the way is not a block of its own file: the copy of the table is made before the
      eviction tells the old one where the cluster went. */
  lemma TableOverExact(s: Sys, live: set<nat>, a: nat, b: nat, c: nat, run: nat)
    requires WellLinked(s, live) && a in live && IsTable(s.disk, a) && a != b && Evictable(s, live, b, c, run)
    ensures b in s.disk
    ensures Moved(OverMap(s, live, a, b, c, run), s, live, TableOver(s, a, b, c, run)) <==> !OwnData(s, a, b)
  {
    hide WellLinked, Moved, Evictable, EvictMap, TableOver, TablePatch, Mirrors;
    EvictThenTable(s, live, a, b, c, run);
    if OwnData(s, a, b) {
      StaleTable(s, live, a, b, c, run);
    } else {
      var w := Evicted(s, b, c, run);
      TableOverMirrors(s, live, a, b, c, run);
      MovedMirrors(OverMap(s, live, a, b, c, run), s, live, TablePatch(Put(w, b, w.disk[a]), s.disk[a].ino, b),
                   TableOver(s, a, b, c, run));
    }
  }

  /** The copied table is at b whatever happens in the eviction. */
  lemma CopiedTable(s: Sys, live: set<nat>, a: nat, b: nat, c: nat, run: nat)
    requires WellLinked(s, live) && a in live && IsTable(s.disk, a) && a != b && Evictable(s, live, b, c, run)
    ensures b in s.disk && b in TableOver(s, a, b, c, run).disk && TableOver(s, a, b, c, run).disk[b] == s.disk[a]
  {
    hide WellLinked, Evictable, EvictCode, Mirrors, Aside;
    ToEvict(s, live, b, c, run);
    SelfMirrors(s, live);
    var u := Copies(s, b, c, s.disk[a]);
    EvictInodes(s, s, live, {}, b, c, run, s.disk[a]);
    if IsData(s.disk, b) {
      EvictOwned(s, s, live, {}, b, c, run, s.disk[a]);
      EvictValues(s, live, b, c, run);
      RunSetIs(b, run);
    }
    EvictLeaves(u, b, c, run, b);
  }

  lemma StaleTable(s: Sys, live: set<nat>, a: nat, b: nat, c: nat, run: nat)
    requires WellLinked(s, live) && a in live && IsTable(s.disk, a) && a != b && Evictable(s, live, b, c, run)
             && OwnData(s, a, b)
    ensures b in s.disk && !Moved(OverMap(s, live, a, b, c, run), s, live, TableOver(s, a, b, c, run))
  {
    hide WellLinked, Renamed, TableOver, NrClusters, FirstOfCluster;
    var r, u := OverMap(s, live, a, b, c, run), TableOver(s, a, b, c, run);
    CopiedTable(s, live, a, b, c, run);
    ClusterStart(s, live, b);
    ClusterUsed(s, live, b);
    OneTable(s, live, a);
    RunSetIs(b, b);
    RunSetIs(b, run);
    assert r[b] != b;
    if Moved(r, s, live, u) {
      RenamedRun(r, s.disk[a], u.disk[r[a]], s.info[b].cluster, 0);
    }
  }

  lemma ClusterUsed(s: Sys, live: set<nat>, b: nat)
    requires WellLinked(s, live) && FirstOfCluster(s, live, b)
    ensures s.info[b].cluster < NrClusters(s.disk[s.iBno[s.info[b].ino]].clusters)
  {
  }

  lemma TableOverMirrors(s: Sys, live: set<nat>, a: nat, b: nat, c: nat, run: nat)
    requires WellLinked(s, live) && a in live && IsTable(s.disk, a) && a != b && Evictable(s, live, b, c, run)
             && !OwnData(s, a, b)
    ensures b in s.disk
    ensures var w := Evicted(s, b, c, run);
            && IsTable(w.disk, a)
            && Mirrors(TableOver(s, a, b, c, run), TablePatch(Put(w, b, w.disk[a]), s.disk[a].ino, b),
                       EvictMap(s, live, b, c, run).Values - {a} + {b})
  {
    hide WellLinked, Evictable, EvictMap, EvictCode, Evicted, Aside;
    ToEvict(s, live, b, c, run);
    SelfMirrors(s, live);
    EvictMirrors(s, s, live, {}, b, c, run, s.disk[a]);
    EvictInodes(s, s, live, {}, b, c, run, s.disk[a]);
    CopiedTable(s, live, a, b, c, run);
    SameTable(s, live, a, b, c, run);
    var w, e := Evicted(s, b, c, run), EvictMap(s, live, b, c, run);
    var u, z := TableOver(s, a, b, c, run), TablePatch(Put(w, b, w.disk[a]), s.disk[a].ino, b);
    forall y | y in e.Values - {a} + {b}
      ensures MirrorsAt(u, z, y)
    {
      if y != b { assert MirrorsAt(EvictCode(Copies(s, b, c, s.disk[a]), b, c, run), w, y); }
    }
  }

  /** The eviction of something else leaves the table. */
  lemma SameTable(s: Sys, live: set<nat>, a: nat, b: nat, c: nat, run: nat)
    requires WellLinked(s, live) && a in live && IsTable(s.disk, a) && a != b && Evictable(s, live, b, c, run)
             && !OwnData(s, a, b)
    ensures b in s.disk && a in Evicted(s, b, c, run).disk && Evicted(s, b, c, run).disk[a] == s.disk[a]
  {
    hide WellLinked, PatchTreeBlock, PatchNameBlock, TreePatch, NamePatch, DataPatch;
    LiveBlock(s, live, b);
    var w1 := Put(s, c, s.disk[b]);
    match s.disk[b] {
      case TreeBlock(n) =>
        TreePatchAt(w1, n, b, c, a);
        PatchOther(s.disk[a], a, n, b, c);
      case NameBlock(first, prev, next, _) =>
        NamePatchAt(w1, first, prev, next, c, a);
        NameKeeps(s.disk[a], a, first, RootOf(w1, prev), prev, next, c);
      case TableBlock(_, _) =>
      case DataBlock(_) =>
        ClusterFacts(s, live, b);
        OneTable(s, live, a);
        RunSetIs(a, run);
        DataPatchAt(s, b, run, a);
    }
  }

  // ------------------------------------------------------------- the method

  /** The wanted block is free. */
  method TableFree(v: Volume, ino: nat, off: nat, ghost live: set<nat>, ghost base: nat)
    returns (ghost r: map<nat, nat>)
    requires Steady(v, live, base) && ino in v.iBno && IsTable(v.blocks, v.iBno[ino])
    requires 0 < base <= off < v.alloc.unused && !v.alloc.bits[off]
    modifies v`blocks, v`iBno, v.alloc, v.alloc.bits
    ensures ino in v.iBno && v.iBno[ino] == off
    ensures Moved(r, old(Snap(v)), live, Snap(v)) && Steady(v, r.Values, base)
    ensures StepMap(r, live, old(v.iBno[ino]), off, old(v.alloc.unused)) && v.alloc.unused == old(v.alloc.unused)
  {
    hide WellLinked, Moved, SetBits, Took, TookAt, Gave, FreeBits, Claimed, HonestAll, AllBelow;
    ghost var s, used, size := Snap(v), v.alloc.Used(), v.alloc.bits.Length;
    var a := v.iBno[ino];
    InodeLive(s, live, ino);
    BitIsUsed(v.alloc.bits[..], off);
    UsedBlock(used, v.alloc.unused, size, live, base, a);
    var new_ := v.alloc.GetOffset(off, 1);
    FreeAtOnce(old(v.alloc.bits[..]), off, new_);
    v.blocks := v.blocks[new_ := v.blocks[a]];
    v.alloc.PutBlocks(v.iBno[ino], 1);
    v.iBno := v.iBno[ino := off];
    r := MoveOne(live, a, off);
    PlacedFree(used, v.alloc.unused, size, live, base, a, off);
    TableMoved(s, live, a, off);
    MoveOneValues(live, a, off);
    FreeStep(live, a, off, v.alloc.unused);
    MovedLinked(r, s, live, Snap(v));
    HonestMoved(r, s, live, Snap(v));
  }

  /** A file's inode names its table. */
  lemma InodeLive(s: Sys, live: set<nat>, ino: nat)
    requires WellLinked(s, live) && ino in s.iBno && IsTable(s.disk, s.iBno[ino])
    ensures s.iBno[ino] in live && s.disk[s.iBno[ino]].ino == ino && ino != 0 && s.iBno[ino] != 0
  {
    assert Owns(s.disk, ino, s.iBno[ino]) && BlockOk(s, live, s.iBno[ino]);
  }

  /** The wanted block is taken. */
  method TableSwap(v: Volume, ino: nat, off: nat, ghost live: set<nat>, ghost base: nat)
    returns (ghost r: map<nat, nat>)
    requires Steady(v, live, base) && ino in v.iBno && IsTable(v.blocks, v.iBno[ino]) && v.iBno[ino] != off
    requires 0 < base <= off && off in live
    requires IsData(v.blocks, off) ==> FirstOfCluster(Snap(v), live, off) && v.info[off].ino != ino
    requires v.alloc.unused + 1 + CLUSTER_LEN <= v.alloc.bits.Length
    modifies v`blocks, v`iBno, v`info, v.alloc, v.alloc.bits
    ensures ino in v.iBno && v.iBno[ino] == off
    ensures Moved(r, old(Snap(v)), live, Snap(v)) && Steady(v, r.Values, base)
    ensures StepMap(r, live, old(v.iBno[ino]), off, old(v.alloc.unused))
    ensures old(v.alloc.unused) <= v.alloc.unused <= old(v.alloc.unused) + 1 + CLUSTER_LEN
  {
    hide WellLinked, Moved, SetBits, Took, TookAt, Gave, FreeBits, Claimed, HonestAll, AllBelow, FirstOfCluster, Range,
         EvictReady, RoomPast, Evictable, EvictCode, Mirrors, Aside, EvictMap, StepMap;
    ghost var s, used, mark, size := Snap(v), v.alloc.Used(), v.alloc.unused, v.alloc.bits.Length;
    ghost var a := v.iBno[ino];
    InodeLive(s, live, ino);
    SelfMirrors(s, live);
    BelowMark(used, mark, live, size);
    UsedBlock(used, mark, size, live, base, a);
    UsedBlock(used, mark, size, live, base, off);
    LiveBelow(used, mark, size, live, base, live);
    LiveBlock(s, live, off);
    var tmp := v.alloc.GetOffset(v.alloc.unused, 1);
    RangeOne(tmp);
    var table := v.blocks[v.iBno[ino]];
    v.blocks := v.blocks[tmp := v.blocks[off]];
    v.blocks := v.blocks[off := table];
    RoomToEvict(s, s, live, {}, used, mark, size, off, table);
    ReadyToEvict(s, s, live, {}, off, tmp, mark + 1, table, size);
    EvictInodes(s, s, live, {}, off, tmp, mark + 1, table);
    ghost var run;
    ghost var ok;
    ok, run := EvictBlock(v, off, tmp);
    TableStays(s, live, a, off, mark, ino);
    v.alloc.PutBlocks(v.iBno[ino], 1);
    v.iBno := v.iBno[ino := off];
    r := OverMap(s, live, a, off, mark, mark + 1);
    EvictThenTable(s, live, a, off, mark, mark + 1);
    TableOverExact(s, live, a, off, mark, mark + 1);
    MovedLinked(r, s, live, Snap(v));
    HonestMoved(r, s, live, Snap(v));
    EvictAccount(s, live, used, mark, size, off, base);
    OverAccount(used, live, EvictMap(s, live, off, mark, mark + 1).Values, a, off, v.alloc.unused);
    PlacedAgain(used, mark, size, live, base, r.Values, v.alloc.Used(), v.alloc.unused);
    OverStep(s, live, a, off, mark);
  }

  /** Evicting something else does not move the table. */
  lemma TableStays(s: Sys, live: set<nat>, a: nat, b: nat, mark: nat, ino: nat)
    requires WellLinked(s, live) && a in live && IsTable(s.disk, a) && a != b && Evictable(s, live, b, mark, mark + 1)
    requires ino in s.iBno && s.iBno[ino] == a
    ensures b in s.disk && ino in Evicted(s, b, mark, mark + 1).iBno && Evicted(s, b, mark, mark + 1).iBno[ino] == a
  {
    hide WellLinked, Moved, Evictable, EvictMap, Evicted;
    EvictedMoved(s, live, b, mark, mark + 1);
    NotGoing(s, live, a, b, mark, mark + 1);
    MovedInode(EvictMap(s, live, b, mark, mark + 1), s, live, Evicted(s, b, mark, mark + 1), ino);
  }

  /** The table of file ino goes to off, whatever is there but a block of its own file. */
  method PlaceTable(v: Volume, ino: nat, off: nat, ghost live: set<nat>, ghost base: nat)
    returns (ghost r: map<nat, nat>)
    requires Steady(v, live, base) && ino in v.iBno && IsTable(v.blocks, v.iBno[ino]) && 0 < base <= off <= v.iBno[ino]
    requires off in live && IsData(v.blocks, off) ==> FirstOfCluster(Snap(v), live, off) && v.info[off].ino != ino
    requires v.alloc.unused + 1 + CLUSTER_LEN <= v.alloc.bits.Length
    modifies v`blocks, v`iBno, v`info, v.alloc, v.alloc.bits
    ensures ino in v.iBno && v.iBno[ino] == off
    ensures Moved(r, old(Snap(v)), live, Snap(v)) && Steady(v, r.Values, base)
    ensures StepMap(r, live, old(v.iBno[ino]), off, old(v.alloc.unused))
    ensures old(v.alloc.unused) <= v.alloc.unused <= old(v.alloc.unused) + 1 + CLUSTER_LEN
  {
    hide WellLinked, Moved, SetBits, Took, TookAt, Gave, HonestAll, FirstOfCluster;
    ghost var s := Snap(v);
    InodeLive(s, live, ino);
    UsedBlock(v.alloc.Used(), v.alloc.unused, v.alloc.bits.Length, live, base, v.iBno[ino]);
    BitIsUsed(v.alloc.bits[..], off);
    if off == v.iBno[ino] {
      r := MoveOne(live, off, off);
      MovedNowhere(s, live, r);
      Stay(live, off);
      return;
    }
    var empty := v.alloc.IsRangeEmpty(off, 1);
    if empty {
      r := TableFree(v, ino, off, live, base);
    } else {
      assert v.alloc.bits[off];
      r := TableSwap(v, ino, off, live, base);
    }
  }
}
