/** Clearing the way: the block at a wanted place has been copied to c and overwritten, and
    now everything that refers to it is repaired. Other blocks may be half-way through a
    move of their own, so the repair is compared with the same eviction in a state w that
    agrees with the volume wherever no such move is under way. */
module DefragEvict {
  import opened Blocks
  import opened Bitmap
  import opened DiskTree
  import opened System
  import opened Relocate
  import opened DefragStep
  import opened Defrag
  import opened DefragNode
  import opened DefragTree

  // -------------------------------------------------- eviction from a whole graph

  /** Block b can go to c, or its whole cluster to run. */
  ghost predicate Evictable(w: Sys, live: set<nat>, b: nat, c: nat, run: nat) {
    && b in live && c !in live && c != 0
    && (IsData(w.disk, b) ==> FirstOfCluster(w, live, b) && RunSet(run) !! live && run != 0 && c !in RunSet(run))
  }

  /** The entry of b in the reverse map can be followed. */
  predicate Owned(u: Sys, b: nat) {
    && b in u.info && u.info[b].ino in u.iBno && IsTable(u.disk, u.iBno[u.info[b].ino])
    && u.info[b].cluster < |u.disk[u.iBno[u.info[b].ino]].clusters|
  }

  function Evicted(w: Sys, b: nat, c: nat, run: nat): Sys
    requires b in w.disk
  {
    var x := w.disk[b];
    match x
    case TreeBlock(n) => TreePatch(Put(w, c, x), n, b, c)
    case NameBlock(first, prev, next, _) => NamePatch(Put(w, c, x), first, prev, next, c)
    case TableBlock(ino, _) => TablePatch(Put(w, c, x), ino, c)
    case DataBlock(_) => if Owned(w, b) then DataPatch(w, b, run) else w
  }

  function EvictMap(w: Sys, live: set<nat>, b: nat, c: nat, run: nat): map<nat, nat> {
    if IsData(w.disk, b) then MoveRun(live, b, run) else MoveOne(live, b, c)
  }

  lemma EvictedMoved(w: Sys, live: set<nat>, b: nat, c: nat, run: nat)
    requires WellLinked(w, live) && Evictable(w, live, b, c, run)
    ensures b in w.disk && Moved(EvictMap(w, live, b, c, run), w, live, Evicted(w, b, c, run))
  {
    hide WellLinked, Moved, TreePatch, NamePatch, TablePatch, FirstOfCluster, RunSet, MoveRun, MoveOne;
    LiveBlock(w, live, b);
    match w.disk[b]
    case TreeBlock(n) => TreeMoved(w, live, b, c);
    case NameBlock(_, _, _, _) => NameMoved(w, live, b, c);
    case TableBlock(_, _) => TableMoved(w, live, b, c);
    case DataBlock(_) =>
      ClusterFacts(w, live, b);
      DataMoved(w, live, b, run);
  }

  /** The blocks that go and the places they take. */
  function Going(w: Sys, b: nat): set<nat> { if IsData(w.disk, b) then RunSet(b) else {b} }

  function Coming(w: Sys, b: nat, c: nat, run: nat): set<nat> { if IsData(w.disk, b) then RunSet(run) else {c} }

  lemma EvictValues(w: Sys, live: set<nat>, b: nat, c: nat, run: nat)
    requires WellLinked(w, live) && Evictable(w, live, b, c, run)
    ensures EvictMap(w, live, b, c, run).Values == live - Going(w, b) + Coming(w, b, c, run)
    ensures b in Going(w, b) && Going(w, b) <= live && Coming(w, b, c, run) !! live
    ensures forall x | x in live && x !in Going(w, b) :: EvictMap(w, live, b, c, run)[x] == x
    ensures forall x | x in Going(w, b) :: EvictMap(w, live, b, c, run)[x] in Coming(w, b, c, run)
    ensures forall y | y in Going(w, b) ::
              IsData(w.disk, b) ==> IsData(w.disk, y) && y in w.info && w.info[y] == w.info[b]
  {
    hide WellLinked, FirstOfCluster;
    var e := EvictMap(w, live, b, c, run);
    if IsData(w.disk, b) {
      ClusterFacts(w, live, b);
      forall y
        ensures y in RunSet(b) ==> y in live && IsData(w.disk, y) && y in w.info && w.info[y] == w.info[b]
      {
        ClusterRun(w, live, b, y);
      }
      RunValues(live, b, run);
    } else {
      MoveOneValues(live, b, c);
    }
  }

  lemma RunValues(live: set<nat>, a: nat, b: nat)
    requires RunSet(a) <= live
    ensures MoveRun(live, a, b).Values == live - RunSet(a) + RunSet(b)
  {
    var r := MoveRun(live, a, b);
    forall y | y in live - RunSet(a) + RunSet(b)
      ensures y in r.Values
    {
      if y in RunSet(b) {
        assert a + (y - b) in RunSet(a);
        assert r[a + (y - b)] == y;
      } else {
        assert r[y] == y;
      }
    }
  }

  // --------------------------------------------------- eviction as it is coded

  /** The repair after the copies: the evicted block is read from c. */
  function EvictCode(u: Sys, b: nat, c: nat, run: nat): Sys
    requires c in u.disk
  {
    match u.disk[c]
    case TreeBlock(n) => TreePatch(u, n, b, c)
    case NameBlock(first, prev, next, _) => NamePatch(u, first, prev, next, c)
    case TableBlock(ino, _) => TablePatch(u, ino, c)
    case DataBlock(_) => if Owned(u, b) then DataPatchFrom(u, b, c, run) else u
  }

  /** Block b is copied to c and then overwritten by x. */
  function Copies(u: Sys, b: nat, c: nat, x: Block): Sys
    requires b in u.disk
  {
    Put(Put(u, c, u.disk[b]), b, x)
  }

  /** On the blocks k, and on all inodes, u is w. */
  ghost predicate Mirrors(u: Sys, w: Sys, k: set<nat>) {
    u.iBno == w.iBno && forall y | y in k :: MirrorsAt(u, w, y)
  }

  ghost predicate MirrorsAt(u: Sys, w: Sys, y: nat) {
    && y in w.disk && y in u.disk && u.disk[y] == w.disk[y]
    && (w.disk[y].DataBlock? && y in w.info ==> y in u.info && u.info[y] == w.info[y])
  }

  /** Blocks done are between two places; none of them has to do with the eviction. */
  ghost predicate Aside(w: Sys, done: set<nat>, b: nat) {
    (forall y | y in done :: IsData(w.disk, y)) && Going(w, b) !! done
  }

  predicate Plain(x: Block) { x.TableBlock? || x.DataBlock? }

  lemma EvictInodes(u: Sys, w: Sys, live: set<nat>, done: set<nat>, b: nat, c: nat, run: nat, x: Block)
    requires WellLinked(w, live) && Evictable(w, live, b, c, run) && Mirrors(u, w, live - done) && Aside(w, done, b)
    ensures b in u.disk && b in w.disk
    ensures EvictCode(Copies(u, b, c, x), b, c, run).iBno == Evicted(w, b, c, run).iBno
    ensures w.disk[b] == u.disk[b] == Copies(u, b, c, x).disk[c]
  {
    hide WellLinked, FirstOfCluster, RunSet;
    LiveBlock(w, live, b);
    EvictValues(w, live, b, c, run);
    assert MirrorsAt(u, w, b);
  }

  /** The two ways agree on one block that is not between places. */
  lemma EvictAt(u: Sys, w: Sys, live: set<nat>, done: set<nat>, b: nat, c: nat, run: nat, x: Block, y: nat)
    requires WellLinked(w, live) && Evictable(w, live, b, c, run) && Mirrors(u, w, live - done) && Aside(w, done, b)
    requires y in live - Going(w, b) + Coming(w, b, c, run) && y !in done
    ensures b in u.disk && b in w.disk
    ensures MirrorsAt(EvictCode(Copies(u, b, c, x), b, c, run), Evicted(w, b, c, run), y)
  {
    hide WellLinked, FirstOfCluster, RunSet, TreePatch, NamePatch, PatchTreeBlock, PatchNameBlock, Going, Coming,
         Mirrors, Aside;
    EvictInodes(u, w, live, done, b, c, run, x);
    EvictValues(w, live, b, c, run);
    var u1, w1 := Copies(u, b, c, x), Put(w, c, w.disk[b]);
    Places(w, b, c, run);
    if IsData(w.disk, b) {
      EvictDataAt(u, w, live, done, b, c, run, x, y);
    } else {
      if y != c { MirrorAt(u, w, live, done, y); }
      match w.disk[b] {
        case TreeBlock(n) =>
          TreePatchAt(u1, n, b, c, y);
          TreePatchAt(w1, n, b, c, y);
          PatchOther(w1.disk[y], y, n, b, c);
        case NameBlock(first, prev, next, _) =>
          NamePatchAt(u1, first, prev, next, c, y);
          NamePatchAt(w1, first, prev, next, c, y);
          MirrorInodes(u, w, live - done);
          NameKeeps(w1.disk[y], y, first, RootOf(w1, prev), prev, next, c);
        case TableBlock(ino, _) =>
      }
    }
  }

  lemma NameKeeps(x: Block, y: nat, first: bool, rb: nat, prev: nat, next: nat, c: nat)
    ensures PatchNameBlock(x, y, first, rb, prev, next, c).DataBlock? <==> x.DataBlock?
    ensures Plain(x) ==> PatchNameBlock(x, y, first, rb, prev, next, c) == x
  {
  }

  lemma Places(w: Sys, b: nat, c: nat, run: nat)
    ensures Going(w, b) == if IsData(w.disk, b) then RunSet(b) else {b}
    ensures Coming(w, b, c, run) == if IsData(w.disk, b) then RunSet(run) else {c}
  {
  }

  lemma MirrorAt(u: Sys, w: Sys, live: set<nat>, done: set<nat>, y: nat)
    requires Mirrors(u, w, live - done) && y in live && y !in done
    ensures MirrorsAt(u, w, y)
  {
  }

  lemma MirrorInodes(u: Sys, w: Sys, k: set<nat>)
    requires Mirrors(u, w, k)
    ensures u.iBno == w.iBno
  {
  }

  /** The cluster that goes: its table and its blocks are where the volume has them. */
  lemma EvictOwned(u: Sys, w: Sys, live: set<nat>, done: set<nat>, b: nat, c: nat, run: nat, x: Block)
    requires WellLinked(w, live) && Evictable(w, live, b, c, run) && Mirrors(u, w, live - done) && Aside(w, done, b)
    requires IsData(w.disk, b)
    ensures Owned(w, b) && b in u.disk && Owned(Copies(u, b, c, x), b) && u.iBno == w.iBno
    ensures b in u.info && u.info[b] == w.info[b]
    ensures var tb := w.iBno[w.info[b].ino];
            && tb in live && tb !in RunSet(b) && tb !in RunSet(run) && tb != b && tb != c && tb !in done
            && MirrorsAt(u, w, tb)
  {
    hide WellLinked, FirstOfCluster, RunSet;
    ClusterFacts(w, live, b);
    EvictValues(w, live, b, c, run);
    var tb := w.iBno[w.info[b].ino];
    ClusterRun(w, live, b, tb);
    assert MirrorsAt(u, w, b) && MirrorsAt(u, w, tb);
    RunSetIs(tb, b);
    RunSetIs(b, b);
  }

  lemma EvictDataAt(u: Sys, w: Sys, live: set<nat>, done: set<nat>, b: nat, c: nat, run: nat, x: Block, y: nat)
    requires WellLinked(w, live) && Evictable(w, live, b, c, run) && Mirrors(u, w, live - done) && Aside(w, done, b)
    requires IsData(w.disk, b) && y in live - RunSet(b) + RunSet(run) && y !in done
    ensures b in u.disk && b in w.disk
    ensures MirrorsAt(EvictCode(Copies(u, b, c, x), b, c, run), Evicted(w, b, c, run), y)
  {
    hide WellLinked, FirstOfCluster, RunSet, Mirrors, DataPatch, Aside;
    EvictOwned(u, w, live, done, b, c, run, x);
    EvictInodes(u, w, live, done, b, c, run, x);
    EvictValues(w, live, b, c, run);
    var u1, tb := Copies(u, b, c, x), w.iBno[w.info[b].ino];
    DataPatchAt(u1, b, run, y);
    DataPatchAt(w, b, run, y);
    DataInfoAt(u1, b, run, y);
    DataInfoAt(w, b, run, y);
    RunSetIs(y, b);
    RunSetIs(y, run);
    if y in RunSet(run) {
      var from := b + (y - run);
      RunSetIs(from, b);
      AsideRun(w, done, b, from);
      MirrorAt(u, w, live, done, from);
    } else {
      MirrorAt(u, w, live, done, y);
    }
  }

  lemma AsideRun(w: Sys, done: set<nat>, b: nat, y: nat)
    requires Aside(w, done, b) && IsData(w.disk, b) && y in RunSet(b)
    ensures y !in done
  {
  }

  lemma DataInfoAt(s: Sys, b: nat, run: nat, y: nat)
    requires Owned(s, b)
    ensures var u := DataPatch(s, b, run);
            && u.iBno == s.iBno && (y in u.info <==> y in s.info || InRun(y, b) || InRun(y, run))
            && (y in u.info ==> u.info[y] == if InRun(y, run) then s.info[b]
                                             else if InRun(y, b) then FileInfo(0, 0) else s.info[y])
  {
    RunSetIs(y, b);
    RunSetIs(y, run);
  }

  /** Evicting behind the back of a move that is under way is evicting in w. */
  lemma EvictMirrors(u: Sys, w: Sys, live: set<nat>, done: set<nat>, b: nat, c: nat, run: nat, x: Block)
    requires WellLinked(w, live) && Evictable(w, live, b, c, run) && Mirrors(u, w, live - done) && Aside(w, done, b)
    ensures b in u.disk && b in w.disk
    ensures Mirrors(EvictCode(Copies(u, b, c, x), b, c, run), Evicted(w, b, c, run),
                    EvictMap(w, live, b, c, run).Values - done)
  {
    hide WellLinked, Evictable, Mirrors, Aside, EvictMap, Going, Coming, EvictCode, Evicted, MirrorsAt;
    EvictInodes(u, w, live, done, b, c, run, x);
    EvictValues(w, live, b, c, run);
    var u2, w2, k := EvictCode(Copies(u, b, c, x), b, c, run), Evicted(w, b, c, run), EvictMap(w, live, b, c,
            run).Values - done;
    forall y | y in k
      ensures MirrorsAt(u2, w2, y)
    {
      EvictAt(u, w, live, done, b, c, run, x, y);
    }
    MirrorsAll(u2, w2, k);
  }

  lemma MirrorsAll(u: Sys, w: Sys, k: set<nat>)
    requires u.iBno == w.iBno && forall y | y in k :: MirrorsAt(u, w, y)
    ensures Mirrors(u, w, k)
  {
  }

  /** What the repair leaves alone: data, tables other than the cluster's own, and the
      reverse map outside both runs. */
  lemma EvictLeaves(u: Sys, b: nat, c: nat, run: nat, y: nat)
    requires c in u.disk && y in u.disk && Plain(u.disk[y])
    requires u.disk[c].DataBlock? ==> Owned(u, b) && !InRun(y, run) && y != u.iBno[u.info[b].ino]
    ensures var u2 := EvictCode(u, b, c, run); y in u2.disk && u2.disk[y] == u.disk[y]
  {
    hide PatchTreeBlock, PatchNameBlock, DataPatch, TreePatch, NamePatch;
    match u.disk[c] {
      case TreeBlock(n) =>
        TreePatchAt(u, n, b, c, y);
        PatchOther(u.disk[y], y, n, b, c);
      case NameBlock(first, prev, next, _) =>
        NamePatchAt(u, first, prev, next, c, y);
        NameKeeps(u.disk[y], y, first, RootOf(u, prev), prev, next, c);
      case TableBlock(ino, _) =>
      case DataBlock(_) =>
        RunSetIs(run, run);
        DataPatchAt(u, b, run, y);
    }
  }

  lemma EvictInfo(u: Sys, b: nat, c: nat, run: nat, y: nat)
    requires c in u.disk && (u.disk[c].DataBlock? ==> Owned(u, b) && !InRun(y, run) && !InRun(y, b))
    ensures var u2 := EvictCode(u, b, c, run);
            (y in u2.info <==> y in u.info) && (y in u.info ==> u2.info[y] == u.info[y])
  {
    hide TreePatch, NamePatch, DataPatch;
    match u.disk[c] {
      case TreeBlock(n) => TreePatchAt(u, n, b, c, y);
      case NameBlock(first, prev, next, _) => NamePatchAt(u, first, prev, next, c, y);
      case TableBlock(ino, _) =>
      case DataBlock(_) => DataInfoAt(u, b, run, y);
    }
  }

  // ------------------------------------------------------------- the switch

  /** The repair can be carried out. */
  ghost predicate EvictReady(u: Sys, size: nat, b: nat, c: nat) {
    && c in u.disk && 0 < c <= size && Honest(u.disk[c])
    && match u.disk[c]
       case TreeBlock(n) => Patchable(u, size, c)
       case NameBlock(first, prev, next, _) =>
         && (first ==> prev in u.iBno && 0 < u.iBno[prev] <= size && IsTree(u.disk, u.iBno[prev]))
         && (!first ==> 0 < prev <= size && IsName(u.disk, prev))
         && (next != 0 ==> next <= size && IsName(u.disk, next))
       case TableBlock(_, _) => true
       case DataBlock(_) => MovableCluster(u, b)
  }

  /** Nothing allocated lies past the high-water mark, and there is room past it. */
  ghost predicate RoomPast(u: Sys, used: set<nat>, mark: nat, size: nat, b: nat, c: nat) {
    && 0 < mark && mark + CLUSTER_LEN <= size && c < mark && AllBelow(used, mark) && b + CLUSTER_LEN <= mark
    && Owned(u, b) && u.iBno[u.info[b].ino] < mark
  }

  /** The switch on block_type_id and the routines it calls. */
  method EvictBlock(v: Volume, b: nat, c: nat) returns (ok: bool, ghost run: nat)
    requires v.alloc.Valid() && EvictReady(Snap(v), v.alloc.bits.Length, b, c)
    requires IsData(v.blocks, c) ==> RoomPast(Snap(v), v.alloc.Used(), v.alloc.unused, v.alloc.bits.Length, b, c)
    modifies v`blocks, v`iBno, v`info, v.alloc, v.alloc.bits
    ensures ok && v.alloc.Valid() && c in old(v.blocks) && run == old(v.alloc.unused)
    ensures Snap(v) == EvictCode(old(Snap(v)), b, c, run)
    ensures IsData(old(v.blocks), c) ==>
              && v.alloc.unused == run + CLUSTER_LEN
              && v.alloc.Used() == old(v.alloc.Used()) + Range(run, CLUSTER_LEN) - Range(b + 1, CLUSTER_LEN - 1) - {c}
    ensures !IsData(old(v.blocks), c) ==> v.alloc.unused == run && v.alloc.Used() == old(v.alloc.Used())
  {
    hide Patchable, MovableCluster, TreePatch, NamePatch, DataPatchFrom, SetBits, Range, Took, TookAt, Gave;
    run := v.alloc.unused;
    match SwitchCase(v.blocks[c]) {
      case 1 => ok := MoveBtreeNode(v, c, b, c);
      case 2 => ok := MoveNamelist(v, c, c);
      case 3 => ok := MoveClusterTable(v, c, c);
      case _ =>
        ok, run := MoveFileBlock(v, b, c);
    }
  }

  /** After the copies the repair can be carried out, whatever is under way elsewhere. */
  lemma ReadyToEvict(u: Sys, w: Sys, live: set<nat>, done: set<nat>, b: nat, c: nat, run: nat, x: Block, size: nat)
    requires WellLinked(w, live) && Evictable(w, live, b, c, run) && Mirrors(u, w, live - done) && Aside(w, done, b)
    requires AllBelow(live, size + 1) && c <= size && HonestAll(w.disk, live)
    ensures b in u.disk && EvictReady(Copies(u, b, c, x), size, b, c)
  {
    hide WellLinked, FirstOfCluster, RunSet, Kids, Mirrors;
    LiveBlock(w, live, b);
    EvictInodes(u, w, live, done, b, c, run, x);
    EvictValues(w, live, b, c, run);
    match w.disk[b] {
      case TreeBlock(n) => ReadyTree(u, w, live, done, b, c, x, size);
      case NameBlock(first, prev, next, _) =>
        if first { MirrorLive(u, w, live, done, w.iBno[prev]); } else { MirrorLive(u, w, live, done, prev); }
        if next != 0 { MirrorLive(u, w, live, done, next); }
        MirrorInodes(u, w, live - done);
      case TableBlock(_, _) =>
      case DataBlock(_) => ReadyData(u, w, live, done, b, c, run, x);
    }
  }

  /** Blocks other than data are never between places. */
  lemma MirrorLive(u: Sys, w: Sys, live: set<nat>, done: set<nat>, y: nat)
    requires WellLinked(w, live) && Mirrors(u, w, live - done) && (forall z | z in done :: IsData(w.disk, z))
    requires y in live && !IsData(w.disk, y)
    ensures MirrorsAt(u, w, y) && y != 0
  {
    hide WellLinked;
    LiveBlock(w, live, y);
  }

  lemma ReadyTree(u: Sys, w: Sys, live: set<nat>, done: set<nat>, b: nat, c: nat, x: Block, size: nat)
    requires WellLinked(w, live) && b in live && c !in live && Mirrors(u, w, live - done)
             && (forall z | z in done :: IsData(w.disk, z))
    requires IsTree(w.disk, b) && AllBelow(live, size + 1) && b in u.disk && u.disk[b] == w.disk[b]
    ensures Patchable(Copies(u, b, c, x), size, c)
  {
    hide WellLinked, Kids, Mirrors;
    LiveBlock(w, live, b);
    OnlyParent(w, live, b, b);
    var n := w.disk[b].node;
    MirrorInodes(u, w, live - done);
    if !n.root {
      LiveBlock(w, live, n.parent);
      MirrorLive(u, w, live, done, n.parent);
    }
    forall k | k in Kids(n)
      ensures k != c && 0 < k <= size && IsTree(Copies(u, b, c, x).disk, k)
    {
      MirrorLive(u, w, live, done, k);
    }
  }

  lemma ReadyData(u: Sys, w: Sys, live: set<nat>, done: set<nat>, b: nat, c: nat, run: nat, x: Block)
    requires WellLinked(w, live) && Evictable(w, live, b, c, run) && Mirrors(u, w, live - done) && Aside(w, done, b)
    requires IsData(w.disk, b)
    ensures b in u.disk && MovableCluster(Copies(u, b, c, x), b)
  {
    hide WellLinked, FirstOfCluster, RunSet, Mirrors, Aside;
    EvictOwned(u, w, live, done, b, c, run, x);
    EvictValues(w, live, b, c, run);
    ClusterStart(w, live, b);
    LiveBlock(w, live, b);
    var tb := w.iBno[w.info[b].ino];
    RunSetIs(tb, b);
    forall y | InRun(y, b)
      ensures y in Copies(u, b, c, x).disk
    {
      RunSetIs(y, b);
      AsideRun(w, done, b, y);
      MirrorAt(u, w, live, done, y);
    }
  }

  // --------------------------------------------------------------- accounts

  /** There is room past the high-water mark. */
  lemma RoomToEvict(u: Sys, w: Sys, live: set<nat>, done: set<nat>, used: set<nat>, mark: nat, size: nat, b: nat,
                    x: Block)
    requires WellLinked(w, live) && Mirrors(u, w, live - done) && Aside(w, done, b)
    requires b in live && AllBelow(live, mark) && AllBelow(used, mark) && 0 < mark && mark + 1 + CLUSTER_LEN <= size
    requires IsData(w.disk, b) ==> FirstOfCluster(w, live, b)
    ensures Evictable(w, live, b, mark, mark + 1) && b in u.disk
    ensures IsData(w.disk, b) ==> RoomPast(Copies(u, b, mark, x), used + {mark}, mark + 1, size, b, mark)
  {
    hide WellLinked, FirstOfCluster, Mirrors, Aside;
    RunSetAbove(mark + 1);
    EvictInodes(u, w, live, done, b, mark, mark + 1, x);
    if IsData(w.disk, b) {
      EvictOwned(u, w, live, done, b, mark, mark + 1, x);
      ClusterRun(w, live, b, b + (CLUSTER_LEN - 1));
    }
  }

  /** What is allocated after an eviction. */
  lemma EvictAccount(w: Sys, live: set<nat>, used: set<nat>, mark: nat, size: nat, b: nat, base: nat)
    requires WellLinked(w, live) && Evictable(w, live, b, mark, mark + 1) && live <= used && AllBelow(used, mark)
    ensures var e := EvictMap(w, live, b, mark, mark + 1);
            && (if IsData(w.disk, b)
                then used + {mark} + Range(mark + 1, CLUSTER_LEN) - Range(b + 1, CLUSTER_LEN - 1) - {mark}
                else used + {mark}) == (used - live) + e.Values + {b}
            && AllBelow(e.Values, mark + 1 + if IsData(w.disk, b) then CLUSTER_LEN else 0)
            && mark !in used
  {
    hide WellLinked, Evictable, EvictMap, RunSet, Range;
    EvictValues(w, live, b, mark, mark + 1);
    RangeIsRun(mark + 1);
    TailOfRun(b);
    RunSetAbove(mark + 1);
  }

  lemma RunSetAbove(a: nat)
    ensures AllBelow(RunSet(a), a + CLUSTER_LEN) && Floor(RunSet(a), a)
  {
    assert forall y | y in RunSet(a) :: InRun(y, a);
  }

  lemma TailOfRun(b: nat)
    ensures RunSet(b) == {b} + Range(b + 1, CLUSTER_LEN - 1) && b !in Range(b + 1, CLUSTER_LEN - 1)
  {
    assert forall y :: y in RunSet(b) <==> InRun(y, b);
    var from, n := b + 1, CLUSTER_LEN - 1;
    assert forall y :: y in Range(from, n) <==> Within(y, from, n);
  }

  /** The bitmap stays in order as long as only live blocks are exchanged. */
  lemma PlacedAgain(used: set<nat>, mark: nat, size: nat, live: set<nat>, base: nat, live': set<nat>, used': set<nat>,
                    mark': nat)
    requires Placed(used, mark, size, live, base) && used' == (used - live) + live' && mark <= mark' <= size
             && AllBelow(live', mark')
    ensures Placed(used', mark', size, live', base)
  {
  }

  // ----------------------------------------------- one block over another

  /** Block a goes to b, what was there to c or run. */
  function OverMap(s: Sys, live: set<nat>, a: nat, b: nat, c: nat, run: nat): map<nat, nat> {
    EvictMap(s, live, b, c, run)[a := b]
  }

  lemma ToEvict(s: Sys, live: set<nat>, b: nat, c: nat, run: nat)
    requires WellLinked(s, live) && Evictable(s, live, b, c, run)
    ensures b in live && b in s.disk && b != 0 && c !in live && b != c
  {
    hide WellLinked;
    LiveBlock(s, live, b);
  }

  lemma NotGoing(s: Sys, live: set<nat>, a: nat, b: nat, c: nat, run: nat)
    requires WellLinked(s, live) && a in live && !IsData(s.disk, a) && a != b && Evictable(s, live, b, c, run)
    ensures a !in Going(s, b) && EvictMap(s, live, b, c, run)[a] == a
  {
    hide WellLinked;
    EvictValues(s, live, b, c, run);
  }

  lemma EvictFree(s: Sys, live: set<nat>, b: nat, c: nat, run: nat)
    requires WellLinked(s, live) && Evictable(s, live, b, c, run)
    ensures b !in EvictMap(s, live, b, c, run).Values && b != 0
  {
    hide WellLinked;
    LiveBlock(s, live, b);
    EvictValues(s, live, b, c, run);
  }

  lemma ComposeOne(e: map<nat, nat>, live: set<nat>, a: nat, b: nat)
    requires e.Keys == live && a in e && e[a] == a && Injective(e) && b !in e.Values
    ensures Compose(e, MoveOne(e.Values, a, b)) == e[a := b]
    ensures e[a := b].Values == e.Values - {a} + {b}
  {
    var q, f := Compose(e, MoveOne(e.Values, a, b)), e[a := b];
    assert q.Keys == f.Keys;
    forall y | y in e.Values - {a} + {b}
      ensures y in f.Values
    {
      if y == b { assert f[a] == b; } else { var x :| x in e && e[x] == y; assert f[x] == y; }
    }
  }

  lemma SelfMirrors(s: Sys, live: set<nat>)
    requires WellLinked(s, live)
    ensures Mirrors(s, s, live - {}) && live - {} == live && forall b :: Aside(s, {}, b)
  {
    assert forall y | y in live :: BlockOk(s, live, y);
  }

  lemma MovedMirrors(r: map<nat, nat>, s: Sys, live: set<nat>, u: Sys, w: Sys)
    requires Moved(r, s, live, u) && Mirrors(w, u, r.Values)
    ensures Moved(r, s, live, w)
  {
    hide Renamed, Injective;
    forall b | b in live && IsData(s.disk, b) && b in s.info
      ensures r[b] in w.info && w.info[r[b]] == s.info[b]
    {
      RenamedData(r, s.disk[b], u.disk[r[b]]);
      assert MirrorsAt(w, u, r[b]);
    }
    forall b | b in live && b in s.disk
      ensures r[b] in w.disk && Renamed(r, s.disk[b], w.disk[r[b]])
    {
      assert MirrorsAt(w, u, r[b]);
    }
  }

  lemma OverAccount(used: set<nat>, live: set<nat>, now: set<nat>, a: nat, off: nat, mark: nat)
    requires a in live && a != off && AllBelow(now, mark) && off < mark
    ensures (used - live) + now + {off} - {a} == (used - live) + (now - {a} + {off})
            && AllBelow(now - {a} + {off}, mark)
  {
  }

  lemma OverStep(s: Sys, live: set<nat>, a: nat, off: nat, mark: nat)
    requires WellLinked(s, live) && a in live && Evictable(s, live, off, mark, mark + 1)
    ensures StepMap(OverMap(s, live, a, off, mark, mark + 1), live, a, off, mark)
  {
    hide WellLinked, Evictable;
    EvictValues(s, live, off, mark, mark + 1);
  }
}
