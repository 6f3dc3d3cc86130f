/** The fourth part of basicbtfs_defrag_nametree_block: a name block goes to the wanted
    block. Its neighbours are told before what was there is moved away. */
module DefragName {
  import opened BTree
  import opened Blocks
  import opened Bitmap
  import opened DiskTree
  import opened System
  import opened Relocate
  import opened DefragStep
  import opened Defrag
  import opened DefragNode
  import opened DefragTree
  import opened DefragEvict

  /** Block b is what comes before or after name block a: a block of the same list, or the
      root of the directory it belongs to. */
  predicate Adjacent(s: Sys, a: nat, b: nat) {
    IsName(s.disk, a) &&
    (|| s.disk[a].next == b
     || (!s.disk[a].first && s.disk[a].prev == b)
     || (s.disk[a].first && RootOf(s, s.disk[a].prev) == b))
  }

  /** The repair around the name block x that now lies at b. */
  function TellName(u: Sys, x: Block, b: nat): Sys
    requires x.NameBlock?
  {
    NamePatch(u, x.first, x.prev, x.next, b)
  }

  /** Name block over whatever is at b: both copies, its own references, then the eviction. */
  function NameOver(s: Sys, a: nat, b: nat, c: nat, run: nat): Sys
    requires IsName(s.disk, a) && b in s.disk
  {
    EvictCode(TellName(Copies(s, b, c, s.disk[a]), s.disk[a], b), b, c, run)
  }

  /** What TellName does to a block with content z and number y. */
  function Told(x: Block, z: Block, y: nat, rb: nat, b: nat): Block
    requires x.NameBlock?
  {
    PatchNameBlock(z, y, x.first, rb, x.prev, x.next, b)
  }

  lemma TellNameAt(u: Sys, x: Block, b: nat, y: nat)
    requires x.NameBlock?
    ensures y in TellName(u, x, b).disk <==> y in u.disk
    ensures y in u.disk ==> TellName(u, x, b).disk[y] == Told(x, u.disk[y], y, RootOf(u, x.prev), b)
    ensures TellName(u, x, b).iBno == u.iBno && TellName(u, x, b).info == u.info
  {
    NamePatchAt(u, x.first, x.prev, x.next, b, y);
  }

  /** Evict first, then move the name block. */
  lemma EvictThenName(s: Sys, live: set<nat>, a: nat, b: nat, c: nat, run: nat)
    requires WellLinked(s, live) && a in live && IsName(s.disk, a) && a != b && Evictable(s, live, b, c, run)
    ensures b in s.disk
    ensures var w := Evicted(s, b, c, run);
            && IsName(w.disk, a)
            && Moved(OverMap(s, live, a, b, c, run), s, live, TellName(Put(w, b, w.disk[a]), w.disk[a], b))
            && OverMap(s, live, a, b, c, run).Values == EvictMap(s, live, b, c, run).Values - {a} + {b}
  {
    hide WellLinked, Moved, Renamed, Evictable, EvictMap, Going, Coming, Evicted, NamePatch;
    ToEvict(s, live, b, c, run);
    var e, w := EvictMap(s, live, b, c, run), Evicted(s, b, c, run);
    EvictedMoved(s, live, b, c, run);
    EvictValues(s, live, b, c, run);
    NotGoing(s, live, a, b, c, run);
    MovedLinked(e, s, live, w);
    MovedAt(e, s, live, w, a);
    RenamedData(e, s.disk[a], w.disk[a]);
    MovedInjective(e, s, live, w);
    EvictFree(s, live, b, c, run);
    NameMoved(w, e.Values, a, b);
    MovedTwice(e, MoveOne(e.Values, a, b), s, live, w, TellName(Put(w, b, w.disk[a]), w.disk[a], b));
    ComposeOne(e, live, a, b);
  }

  // ------------------------------------------------------ nothing adjacent

  /** The neighbours of a name block. */
  lemma Neighbours(s: Sys, live: set<nat>, a: nat, b: nat, c: nat)
    requires WellLinked(s, live) && a in live && IsName(s.disk, a) && b in live && !Adjacent(s, a, b) && c !in live
             && c != 0
    ensures var x, rb := s.disk[a], RootOf(s, s.disk[a].prev);
            && (x.first ==> x.prev in s.iBno && rb in live && IsTree(s.disk, rb) && rb != b && rb != c)
            && (!x.first ==> x.prev in live && IsName(s.disk, x.prev) && x.prev != b && x.prev != c)
            && x.next != b && x.next != c && (x.next != 0 ==> x.next in live && IsName(s.disk, x.next))
    ensures forall z :: Told(s.disk[a], z, b, RootOf(s, s.disk[a].prev), b) == z
    ensures forall z :: Told(s.disk[a], z, c, RootOf(s, s.disk[a].prev), b) == z
  {
    hide WellLinked;
    LiveBlock(s, live, a);
  }

  /** What the code has before the eviction. */
  lemma BeforeEviction(s: Sys, live: set<nat>, a: nat, b: nat, c: nat)
    requires WellLinked(s, live) && a in live && IsName(s.disk, a) && b in live && !Adjacent(s, a, b) && c !in live
             && c != 0
    ensures b in s.disk
    ensures var x := s.disk[a]; var u := TellName(Copies(s, b, c, x), x, b);
            && b in u.disk && u.disk[b] == x && c in u.disk && u.disk[c] == s.disk[b] && u.iBno == s.iBno
            && u.info == s.info
  {
    hide WellLinked, NamePatch, PatchNameBlock;
    LiveBlock(s, live, b);
    Neighbours(s, live, a, b, c);
    var x, u1 := s.disk[a], Copies(s, b, c, s.disk[a]);
    TellNameAt(u1, x, b, b);
    TellNameAt(u1, x, b, c);
    assert RootOf(u1, x.prev) == RootOf(s, x.prev);
    assert Told(x, x, b, RootOf(s, x.prev), b) == x && Told(x, s.disk[b], c, RootOf(s, x.prev), b) == s.disk[b];
  }

  /** The name block itself is no neighbour of what is evicted. */
  lemma NotMentioned(s: Sys, live: set<nat>, a: nat, b: nat)
    requires WellLinked(s, live) && a in live && IsName(s.disk, a) && b in live && IsName(s.disk, b) && a != b
             && !Adjacent(s, a, b)
    ensures var z := s.disk[b];
            && (!z.first ==> z.prev != a && z.prev != b) && (z.next != 0 ==> z.next != a && z.next != b)
            && (z.first ==> z.prev in s.iBno && IsTree(s.disk, s.iBno[z.prev]))
    ensures forall c :: Told(s.disk[b], s.disk[a], a, RootOf(s, s.disk[b].prev), c) == s.disk[a]
    ensures forall c :: Told(s.disk[b], s.disk[a], b, RootOf(s, s.disk[b].prev), c) == s.disk[a]
  {
    hide WellLinked;
    LiveBlock(s, live, a);
    LiveBlock(s, live, b);
  }

  /** Two name blocks that are not neighbours write to different fields. */
  lemma TwoTold(s: Sys, live: set<nat>, a: nat, b: nat, c: nat, z: Block, y: nat)
    requires WellLinked(s, live) && a in live && IsName(s.disk, a) && b in live && IsName(s.disk, b) && a != b
             && !Adjacent(s, a, b)
    requires y == c || (y in live && y in s.disk && z == s.disk[y])
    requires c !in live && c != 0
    ensures var x, o, rx, ro := s.disk[a], s.disk[b], RootOf(s, s.disk[a].prev), RootOf(s, s.disk[b].prev);
            Told(o, Told(x, z, y, rx, b), y, ro, c) == Told(x, Told(o, z, y, ro, c), y, rx, b)
  {
    hide WellLinked;
    LiveBlock(s, live, a);
    LiveBlock(s, live, b);
    Neighbours(s, live, a, b, c);
  }

  /** The eviction leaves the name block and the way to its neighbours. */
  lemma NameUntouched(s: Sys, live: set<nat>, a: nat, b: nat, c: nat, run: nat)
    requires WellLinked(s, live) && a in live && IsName(s.disk, a) && a != b && Evictable(s, live, b, c, run)
             && !Adjacent(s, a, b)
    ensures b in s.disk && a in Evicted(s, b, c, run).disk && Evicted(s, b, c, run).disk[a] == s.disk[a]
    ensures s.disk[a].first ==> RootOf(Evicted(s, b, c, run), s.disk[a].prev) == RootOf(s, s.disk[a].prev)
  {
    hide WellLinked, PatchTreeBlock, PatchNameBlock, TreePatch, NamePatch, DataPatch;
    LiveBlock(s, live, b);
    LiveBlock(s, live, a);
    Neighbours(s, live, a, b, c);
    var w1 := Put(s, c, s.disk[b]);
    match s.disk[b] {
      case TreeBlock(n) =>
        TreePatchAt(w1, n, b, c, a);
        PatchOther(s.disk[a], a, n, b, c);
      case NameBlock(first, prev, next, _) =>
        NotMentioned(s, live, a, b);
        TellNameAt(w1, s.disk[b], c, a);
        assert RootOf(w1, prev) == RootOf(s, prev);
        assert Told(s.disk[b], s.disk[a], a, RootOf(s, prev), c) == s.disk[a];
      case TableBlock(_, _) =>
        OneTable(s, live, b);
      case DataBlock(_) =>
        ClusterFacts(s, live, b);
        RunSetIs(a, run);
        DataPatchAt(s, b, run, a);
        DataInfoAt(s, b, run, a);
    }
  }

  // ------------------------------------------------------- the orders agree

  /** Both orders, when a tree node is in the way. */
  lemma OverTreeAt(s: Sys, live: set<nat>, a: nat, b: nat, c: nat, run: nat, y: nat)
    requires WellLinked(s, live) && a in live && IsName(s.disk, a) && a != b && Evictable(s, live, b, c, run)
             && !Adjacent(s, a, b)
    requires IsTree(s.disk, b) && (y == b || y == c || (y in live && y != a))
    ensures b in s.disk
    ensures MirrorsAt(NameOver(s, a, b, c, run), TellName(Put(Evicted(s, b, c, run), b, s.disk[a]), s.disk[a], b), y)
  {
    hide WellLinked, PatchTreeBlock, PatchNameBlock, TreePatch, NamePatch;
    LiveBlock(s, live, b);
    if y in live { LiveBlock(s, live, y); }
    Neighbours(s, live, a, b, c);
    BeforeEviction(s, live, a, b, c);
    NameUntouched(s, live, a, b, c, run);
    var x, n, rb := s.disk[a], s.disk[b].node, RootOf(s, s.disk[a].prev);
    var u1 := Copies(s, b, c, x);
    var u2, w1 := TellName(u1, x, b), Put(s, c, s.disk[b]);
    var w := TreePatch(w1, n, b, c);
    TellNameAt(u1, x, b, y);
    TreePatchAt(u2, n, b, c, y);
    TreePatchAt(w1, n, b, c, y);
    TellNameAt(Put(w, b, x), x, b, y);
    var z := if y == c then s.disk[b] else if y == b then x else s.disk[y];
    NameThenNode(z, y, y, n, n, x.first, rb, RootOf(w, x.prev), x.prev, x.next, b, b, c);
    PatchOther(x, b, n, b, c);
    NameKind(x, z, y, rb, b);
    PatchOther(z, y, n, b, c);
    NameKind(x, PatchTreeBlock(z, y, n, b, c), y, RootOf(w, x.prev), b);
  }

  lemma NameKind(x: Block, z: Block, y: nat, rb: nat, b: nat)
    requires x.NameBlock?
    ensures Told(x, z, y, rb, b).DataBlock? <==> z.DataBlock?
    ensures !x.first || !z.TreeBlock? ==> forall rc :: Told(x, z, y, rc, b) == Told(x, z, y, rb, b)
    ensures Plain(z) ==> Told(x, z, y, rb, b) == z
  {
  }

  lemma OverNameAt(s: Sys, live: set<nat>, a: nat, b: nat, c: nat, run: nat, y: nat)
    requires WellLinked(s, live) && a in live && IsName(s.disk, a) && a != b && Evictable(s, live, b, c, run)
             && !Adjacent(s, a, b)
    requires IsName(s.disk, b) && (y == b || y == c || (y in live && y != a))
    ensures b in s.disk
    ensures MirrorsAt(NameOver(s, a, b, c, run), TellName(Put(Evicted(s, b, c, run), b, s.disk[a]), s.disk[a], b), y)
  {
    hide WellLinked, PatchNameBlock, NamePatch;
    LiveBlock(s, live, b);
    if y in live { LiveBlock(s, live, y); }
    Neighbours(s, live, a, b, c);
    NotMentioned(s, live, a, b);
    BeforeEviction(s, live, a, b, c);
    NameUntouched(s, live, a, b, c, run);
    var x, o := s.disk[a], s.disk[b];
    var u1 := Copies(s, b, c, x);
    var u2, w1 := TellName(u1, x, b), Put(s, c, o);
    var w := TellName(w1, o, c);
    TellNameAt(u1, x, b, y);
    TellNameAt(u2, o, c, y);
    TellNameAt(w1, o, c, y);
    TellNameAt(Put(w, b, x), x, b, y);
    var z := if y == c then o else if y == b then x else s.disk[y];
    NameKind(x, z, y, RootOf(s, x.prev), b);
    NameKind(o, z, y, RootOf(s, o.prev), c);
    NameKind(x, Told(o, z, y, RootOf(s, o.prev), c), y, RootOf(s, x.prev), b);
    if y != b { TwoTold(s, live, a, b, c, z, y); }
  }

  lemma OverTableAt(s: Sys, live: set<nat>, a: nat, b: nat, c: nat, run: nat, y: nat)
    requires WellLinked(s, live) && a in live && IsName(s.disk, a) && a != b && Evictable(s, live, b, c, run)
             && !Adjacent(s, a, b)
    requires IsTable(s.disk, b) && (y == b || y == c || (y in live && y != a))
    ensures b in s.disk
    ensures MirrorsAt(NameOver(s, a, b, c, run), TellName(Put(Evicted(s, b, c, run), b, s.disk[a]), s.disk[a], b), y)
  {
    hide WellLinked, PatchNameBlock, NamePatch;
    LiveBlock(s, live, b);
    if y in live { LiveBlock(s, live, y); }
    Neighbours(s, live, a, b, c);
    BeforeEviction(s, live, a, b, c);
    NameUntouched(s, live, a, b, c, run);
    var x := s.disk[a];
    TellNameAt(Copies(s, b, c, x), x, b, y);
    var w := TablePatch(Put(s, c, s.disk[b]), s.disk[b].ino, c);
    TellNameAt(Put(w, b, x), x, b, y);
    var z := if y == c then s.disk[b] else if y == b then x else s.disk[y];
    NameKind(x, z, y, RootOf(s, x.prev), b);
  }

  /** The cluster in the way and its table do not notice. */
  lemma OverDataFacts(s: Sys, live: set<nat>, a: nat, b: nat, c: nat, run: nat, y: nat)
    requires WellLinked(s, live) && a in live && IsName(s.disk, a) && a != b && Evictable(s, live, b, c, run)
             && !Adjacent(s, a, b)
    requires IsData(s.disk, b) && (y == b || (y in live - RunSet(b) + RunSet(run) && y != a))
    ensures b in s.disk && Owned(s, b) && !InRun(b, run)
    ensures var u := TellName(Copies(s, b, c, s.disk[a]), s.disk[a], b);
            && Owned(u, b) && c in u.disk && u.disk[c] == s.disk[b] && b in u.disk && u.disk[b] == s.disk[a]
            && u.iBno == s.iBno && u.info == s.info
    ensures var tb := s.iBno[s.info[b].ino]; !InRun(tb, run) && tb != b && tb != c && IsTable(s.disk, tb)
    ensures y != b ==> !InRun(y, b) && y != c
    ensures InRun(y, run) ==> b + (y - run) in s.disk && IsData(s.disk, b + (y - run)) && b + (y - run) != c
    ensures y != b && !InRun(y, run) ==> y in live && y in s.disk
  {
    hide WellLinked, PatchNameBlock, NamePatch, FirstOfCluster, RunSet, Adjacent;
    LiveBlock(s, live, b);
    BeforeEviction(s, live, a, b, c);
    SelfMirrors(s, live);
    EvictOwned(s, s, live, {}, b, c, run, s.disk[a]);
    EvictValues(s, live, b, c, run);
    var x, tb := s.disk[a], s.iBno[s.info[b].ino];
    RunSetIs(y, run);
    RunSetIs(y, b);
    RunSetIs(tb, run);
    RunSetIs(b, run);
    if y != b && y in live { LiveBlock(s, live, y); }
    if InRun(y, run) {
      RunSetIs(b + (y - run), b);
    }
    TellNameAt(Copies(s, b, c, x), x, b, tb);
    NameKind(x, s.disk[tb], tb, RootOf(s, x.prev), b);
  }

  lemma OverDataAt(s: Sys, live: set<nat>, a: nat, b: nat, c: nat, run: nat, y: nat)
    requires WellLinked(s, live) && a in live && IsName(s.disk, a) && a != b && Evictable(s, live, b, c, run)
             && !Adjacent(s, a, b)
    requires IsData(s.disk, b) && (y == b || (y in live - RunSet(b) + RunSet(run) && y != a))
    ensures b in s.disk
    ensures MirrorsAt(NameOver(s, a, b, c, run), TellName(Put(Evicted(s, b, c, run), b, s.disk[a]), s.disk[a], b), y)
  {
    hide WellLinked, PatchNameBlock, NamePatch, FirstOfCluster, RunSet, DataPatch, Adjacent, Told, TellName;
    OverDataFacts(s, live, a, b, c, run, y);
    Neighbours(s, live, a, b, c);
    var x := s.disk[a];
    var u2, w := TellName(Copies(s, b, c, x), x, b), DataPatch(s, b, run);
    var from := b + (if InRun(y, run) then y - run else 0);
    TellNameAt(Copies(s, b, c, x), x, b, y);
    TellNameAt(Copies(s, b, c, x), x, b, from);
    DataPatchAt(s, b, run, y);
    DataPatchAt(u2, b, run, y);
    DataInfoAt(s, b, run, y);
    DataInfoAt(u2, b, run, y);
    TellNameAt(Put(w, b, x), x, b, y);
    SameRoot(s, Copies(s, b, c, x), x.prev);
    SameRoot(s, Put(w, b, x), x.prev);
    NameKind(x, s.disk[from], from, RootOf(s, x.prev), b);
    if y in w.disk { NameKind(x, w.disk[y], y, RootOf(s, x.prev), b); }
    if y in s.disk { NameKind(x, s.disk[y], y, RootOf(s, x.prev), b); }
    var cu, cv := NameOver(s, a, b, c, run), TellName(Put(w, b, x), x, b);
    assert cu == DataPatchFrom(u2, b, c, run);
  }

  lemma SameRoot(s: Sys, u: Sys, ino: nat)
    requires u.iBno == s.iBno
    ensures RootOf(u, ino) == RootOf(s, ino)
  {
  }

  lemma DataInodes(s: Sys, b: nat, run: nat)
    requires Owned(s, b)
    ensures DataPatch(s, b, run).iBno == s.iBno
  {
  }

  lemma NameOverInodes(s: Sys, live: set<nat>, a: nat, b: nat, c: nat, run: nat)
    requires WellLinked(s, live) && a in live && IsName(s.disk, a) && a != b && Evictable(s, live, b, c, run)
             && !Adjacent(s, a, b)
    ensures b in s.disk
    ensures NameOver(s, a, b, c, run).iBno == TellName(Put(Evicted(s, b, c, run), b, s.disk[a]), s.disk[a], b).iBno
  {
    hide WellLinked, NamePatch, PatchNameBlock, TreePatch, DataPatch, FirstOfCluster;
    LiveBlock(s, live, b);
    BeforeEviction(s, live, a, b, c);
    var x := s.disk[a];
    var u2 := TellName(Copies(s, b, c, x), x, b);
    TellNameAt(Put(Evicted(s, b, c, run), b, x), x, b, b);
    match s.disk[b] {
      case TreeBlock(n) =>
        TreePatchAt(u2, n, b, c, b);
        TreePatchAt(Put(s, c, s.disk[b]), n, b, c, b);
      case NameBlock(_, _, _, _) =>
        TellNameAt(u2, s.disk[b], c, b);
        TellNameAt(Put(s, c, s.disk[b]), s.disk[b], c, b);
      case TableBlock(_, _) =>
      case DataBlock(_) =>
        ClusterFacts(s, live, b);
        if Owned(u2, b) { DataInodes(u2, b, run); }
        DataInodes(s, b, run);
    }
  }

  lemma NameOverMirrors(s: Sys, live: set<nat>, a: nat, b: nat, c: nat, run: nat)
    requires WellLinked(s, live) && a in live && IsName(s.disk, a) && a != b && Evictable(s, live, b, c, run)
             && !Adjacent(s, a, b)
    ensures b in s.disk
    ensures Mirrors(NameOver(s, a, b, c, run), TellName(Put(Evicted(s, b, c, run), b, s.disk[a]), s.disk[a], b),
                    EvictMap(s, live, b, c, run).Values - {a} + {b})
  {
    hide WellLinked, Evictable, EvictMap, EvictCode, Evicted, NameOver, TellName, Adjacent, MirrorsAt;
    ToEvict(s, live, b, c, run);
    EvictValues(s, live, b, c, run);
    NameOverInodes(s, live, a, b, c, run);
    var k := EvictMap(s, live, b, c, run).Values - {a} + {b};
    var u, w := NameOver(s, a, b, c, run), TellName(Put(Evicted(s, b, c, run), b, s.disk[a]), s.disk[a], b);
    forall y | y in k
      ensures MirrorsAt(u, w, y)
    {
      match s.disk[b] {
        case TreeBlock(_) => OverTreeAt(s, live, a, b, c, run, y);
        case NameBlock(_, _, _, _) => OverNameAt(s, live, a, b, c, run, y);
        case TableBlock(_, _) => OverTableAt(s, live, a, b, c, run, y);
        case DataBlock(_) => OverDataAt(s, live, a, b, c, run, y);
      }
    }
    MirrorsAll(u, w, k);
  }

  // -------------------------------------------------------- something adjacent

  /** The moved block still names the place its neighbour has left, or its directory's root
      the place it has left itself. */
  lemma NameLost(s: Sys, live: set<nat>, a: nat, b: nat, c: nat, run: nat)
    requires WellLinked(s, live) && a in live && IsName(s.disk, a) && a != b && Evictable(s, live, b, c, run)
             && Adjacent(s, a, b)
    ensures b in s.disk && !Moved(OverMap(s, live, a, b, c, run), s, live, NameOver(s, a, b, c, run))
  {
    hide WellLinked, Renamed, NamePatch, PatchNameBlock, TreePatch, PatchTreeBlock, NameOver;
    LiveBlock(s, live, a);
    LiveBlock(s, live, b);
    var r, u, x := OverMap(s, live, a, b, c, run), NameOver(s, a, b, c, run), s.disk[a];
    if x.next == b || (!x.first && x.prev == b) {
      LostCopy(s, live, a, b, c, run);
      OldNeighbour(r, x, u.disk[b], b);
      NotMoved(r, s, live, u, a);
    } else {
      LostRoot(s, live, a, b, c, run);
      OldList(r, s.disk[b], u.disk[c], a);
      NotMoved(r, s, live, u, b);
    }
  }

  lemma NotMoved(r: map<nat, nat>, s: Sys, live: set<nat>, u: Sys, p: nat)
    requires p in live && p in s.disk && p in r && (r[p] in u.disk ==> !Renamed(r, s.disk[p], u.disk[r[p]]))
    ensures !Moved(r, s, live, u)
  {
  }

  lemma OldNeighbour(r: map<nat, nat>, x: Block, y: Block, b: nat)
    requires x.NameBlock? && y.NameBlock? && b in r && r[b] != b && b != 0
    requires if x.next == b then y.next == b else !x.first && x.prev == b && y.prev == b
    ensures !Renamed(r, x, y)
  {
  }

  lemma OldList(r: map<nat, nat>, x: Block, y: Block, a: nat)
    requires x.TreeBlock? && y.TreeBlock? && x.node.root && x.node.treeName == a && y.node.treeName == a && a in r
             && r[a] != a
    ensures !Renamed(r, x, y)
  {
  }

  lemma LostCopy(s: Sys, live: set<nat>, a: nat, b: nat, c: nat, run: nat)
    requires WellLinked(s, live) && a in live && IsName(s.disk, a) && a != b && Evictable(s, live, b, c, run)
    requires s.disk[a].next == b || (!s.disk[a].first && s.disk[a].prev == b)
    ensures b in s.disk && IsName(s.disk, b) && IsName(NameOver(s, a, b, c, run).disk, b)
    ensures var y := NameOver(s, a, b, c, run).disk[b]; if s.disk[a].next == b then y.next == b else y.prev == b
  {
    hide WellLinked, NamePatch;
    LiveBlock(s, live, a);
    LiveBlock(s, live, b);
    var x, o := s.disk[a], s.disk[b];
    var u1 := Copies(s, b, c, x);
    var u2 := TellName(u1, x, b);
    TellNameAt(u1, x, b, b);
    TellNameAt(u1, x, b, c);
    TellNameAt(u2, u2.disk[c], c, b);
  }

  lemma LostRoot(s: Sys, live: set<nat>, a: nat, b: nat, c: nat, run: nat)
    requires WellLinked(s, live) && a in live && IsName(s.disk, a) && a != b && Evictable(s, live, b, c, run)
    requires s.disk[a].first && RootOf(s, s.disk[a].prev) == b
    ensures b in s.disk && IsTree(s.disk, b) && s.disk[b].node.root && s.disk[b].node.treeName == a
    ensures IsTree(NameOver(s, a, b, c, run).disk, c) && NameOver(s, a, b, c, run).disk[c].node.treeName == a
  {
    hide WellLinked, NamePatch, TreePatch, PatchSlot;
    LiveBlock(s, live, a);
    LiveBlock(s, live, b);
    var x, o := s.disk[a], s.disk[b];
    var u1 := Copies(s, b, c, x);
    var u2 := TellName(u1, x, b);
    TellNameAt(u1, x, b, c);
    TreePatchAt(u2, o.node, b, c, c);
    SlotFields(o.node, b, c);
  }

  /** Moving a name block as the source does it renames it consistently if and only if what
      is in the way is neither its neighbour in the list nor the root of its directory. */
  lemma NameOverExact(s: Sys, live: set<nat>, a: nat, b: nat, c: nat, run: nat)
    requires WellLinked(s, live) && a in live && IsName(s.disk, a) && a != b && Evictable(s, live, b, c, run)
    ensures b in s.disk
    ensures Moved(OverMap(s, live, a, b, c, run), s, live, NameOver(s, a, b, c, run)) <==> !Adjacent(s, a, b)
  {
    hide WellLinked, Moved, Evictable, EvictMap, NameOver, TellName, Mirrors, Adjacent;
    EvictThenName(s, live, a, b, c, run);
    if Adjacent(s, a, b) {
      NameLost(s, live, a, b, c, run);
    } else {
      var w := Evicted(s, b, c, run);
      NameUntouched(s, live, a, b, c, run);
      NameOverMirrors(s, live, a, b, c, run);
      MovedMirrors(OverMap(s, live, a, b, c, run), s, live, TellName(Put(w, b, w.disk[a]), w.disk[a], b),
                   NameOver(s, a, b, c, run));
    }
  }

  // ------------------------------------------------------------ the methods

  /** Telling the neighbours changes no block's kind and nothing the eviction relies on. */
  lemma ReadyAfterTelling(u: Sys, x: Block, size: nat, b: nat, c: nat)
    requires x.NameBlock? && EvictReady(u, size, b, c) && TellName(u, x, b).disk[c] == u.disk[c]
    ensures EvictReady(TellName(u, x, b), size, b, c)
  {
    hide NamePatch, Told;
    var w := TellName(u, x, b);
    forall y
      ensures y in w.disk <==> y in u.disk
      ensures y in u.disk ==> SameKind(u.disk[y], w.disk[y])
    {
      TellNameAt(u, x, b, y);
      if y in u.disk { ToldKind(x, u.disk[y], y, RootOf(u, x.prev), b); }
    }
    TellNameAt(u, x, b, c);
  }

  predicate SameKind(x: Block, y: Block) {
    match x
    case TreeBlock(n) => y.TreeBlock? && y.node == n.(treeName := y.node.treeName)
    case NameBlock(_, _, _, _) => y.NameBlock?
    case _ => y == x
  }

  lemma ToldKind(x: Block, z: Block, y: nat, rb: nat, b: nat)
    requires x.NameBlock?
    ensures SameKind(z, Told(x, z, y, rb, b))
  {
  }

  lemma RoomAfterTelling(u: Sys, x: Block, used: set<nat>, mark: nat, size: nat, b: nat, c: nat)
    requires x.NameBlock? && RoomPast(u, used, mark, size, b, c)
    ensures RoomPast(TellName(u, x, b), used, mark, size, b, c)
  {
    hide NamePatch, Told, AllBelow;
    TellNameAt(u, x, b, u.iBno[u.info[b].ino]);
    ToldKind(x, u.disk[u.iBno[u.info[b].ino]], u.iBno[u.info[b].ino], RootOf(u, x.prev), b);
  }

  /** The neighbours of a name block exist. */
  lemma CanTell(s: Sys, live: set<nat>, a: nat, size: nat)
    requires WellLinked(s, live) && a in live && IsName(s.disk, a) && AllBelow(live, size + 1)
    ensures var x := s.disk[a];
            && (x.first ==>
                  && x.prev in s.iBno && 0 < s.iBno[x.prev] <= size
                  && s.iBno[x.prev] in live && IsTree(s.disk, s.iBno[x.prev]))
            && (!x.first ==> 0 < x.prev <= size && x.prev in live && IsName(s.disk, x.prev))
            && (x.next != 0 ==> x.next <= size && x.next in live && IsName(s.disk, x.next))
  {
    hide WellLinked;
    LiveBlock(s, live, a);
    if s.disk[a].first { LiveBlock(s, live, s.iBno[s.disk[a].prev]); } else { LiveBlock(s, live, s.disk[a].prev); }
  }

  /** The wanted block is free. */
  method NameFree(v: Volume, a: nat, off: nat, ghost live: set<nat>, ghost base: nat) returns (ghost r: map<nat, nat>)
    requires Steady(v, live, base) && a in live && IsName(v.blocks, a)
    requires 0 < base <= off < v.alloc.unused && !v.alloc.bits[off]
    modifies v`blocks, v.alloc, v.alloc.bits
    ensures Moved(r, old(Snap(v)), live, Snap(v)) && Steady(v, r.Values, base)
    ensures StepMap(r, live, a, off, old(v.alloc.unused)) && v.alloc.unused == old(v.alloc.unused)
    ensures OthersStay(r, old(v.blocks), a, off)
  {
    hide WellLinked, Moved, SetBits, Took, TookAt, Gave, FreeBits, Claimed, HonestAll, AllBelow, NamePatch;
    ghost var s, used, size := Snap(v), v.alloc.Used(), v.alloc.bits.Length;
    BitIsUsed(v.alloc.bits[..], off);
    UsedBlock(used, v.alloc.unused, size, live, base, a);
    UsedBelow(live, used, v.alloc.unused, size);
    CanTell(s, live, a, size);
    var new_ := v.alloc.GetOffset(off, 1);
    FreeAtOnce(old(v.alloc.bits[..]), off, new_);
    PlacedFree(used, v.alloc.unused, size, live, base, a, off);
    v.blocks := v.blocks[new_ := v.blocks[a]];
    var ok := MoveNamelist(v, new_, new_);
    v.alloc.PutBlocks(a, 1);
    r := MoveOne(live, a, off);
    NameMoved(s, live, a, off);
    MoveOneValues(live, a, off);
    FreeStep(live, a, off, v.alloc.unused);
    MovedLinked(r, s, live, Snap(v));
    HonestMoved(r, s, live, Snap(v));
  }

  /** What must be known before the copies are made. */
  lemma SwapReady(s: Sys, live: set<nat>, used: set<nat>, mark: nat, size: nat, a: nat, off: nat)
    requires WellLinked(s, live) && a in live && IsName(s.disk, a) && off in live && a != off && !Adjacent(s, a, off)
    requires live <= used && AllBelow(used, mark) && mark + 1 + CLUSTER_LEN <= size && HonestAll(s.disk, live)
    requires IsData(s.disk, off) ==> FirstOfCluster(s, live, off)
    ensures off in s.disk && Evictable(s, live, off, mark, mark + 1) && mark !in live && off < mark && a < mark
    ensures var x := s.disk[a]; var u := Copies(s, off, mark, x); var w := TellName(u, x, off);
            && (x.first ==> x.prev in u.iBno && 0 < u.iBno[x.prev] <= size && IsTree(u.disk, u.iBno[x.prev]))
            && (!x.first ==> 0 < x.prev <= size && IsName(u.disk, x.prev))
            && (x.next != 0 ==> x.next <= size && IsName(u.disk, x.next))
            && EvictReady(w, size, off, mark) && off in u.disk && u.disk[off] == x
            && (IsData(w.disk, mark) <==> IsData(s.disk, off))
            && (IsData(s.disk, off) ==> RoomPast(w, used + {mark}, mark + 1, size, off, mark))
  {
    hide WellLinked, AllBelow, FirstOfCluster, RunSet, NamePatch, EvictReady, RoomPast, Evictable, Mirrors, Aside,
         HonestAll;
    LiveBlock(s, live, off);
    var x := s.disk[a];
    var u := Copies(s, off, mark, x);
    SelfMirrors(s, live);
    BelowAll(live, used, mark, size);
    CanTell(s, live, a, size);
    NotAdjacent(s, a, off);
    BelowOf(live, mark, a);
    BelowOf(live, mark, off);
    RoomToEvict(s, s, live, {}, used, mark, size, off, x);
    ReadyToEvict(s, s, live, {}, off, mark, mark + 1, x, size);
    BeforeEviction(s, live, a, off, mark);
    ReadyAfterTelling(u, x, size, off, mark);
    if IsData(s.disk, off) { RoomAfterTelling(u, x, used + {mark}, mark + 1, size, off, mark); }
  }

  lemma BelowAll(live: set<nat>, used: set<nat>, mark: nat, size: nat)
    requires live <= used && AllBelow(used, mark) && mark <= size
    ensures AllBelow(live, mark) && AllBelow(live, size + 1) && mark !in live
  {
  }

  lemma BelowOf(s: set<nat>, mark: nat, x: nat)
    requires AllBelow(s, mark) && x in s
    ensures x < mark
  {
  }

  /** The copies, the neighbours and the eviction. */
  method SwapName(v: Volume, a: nat, off: nat, ghost live: set<nat>)
    requires v.Ready() && WellLinked(Snap(v), live) && HonestAll(v.blocks, live) && live <= v.alloc.Used()
             && AllBelow(v.alloc.Used(), v.alloc.unused)
    requires a in live && IsName(v.blocks, a) && off in live && a != off && !Adjacent(Snap(v), a, off)
    requires IsData(v.blocks, off) ==> FirstOfCluster(Snap(v), live, off)
    requires v.alloc.unused + 1 + CLUSTER_LEN <= v.alloc.bits.Length
    modifies v`blocks, v`iBno, v`info, v.alloc, v.alloc.bits
    ensures v.Ready() && off in old(v.blocks)
    ensures Snap(v) == NameOver(old(Snap(v)), a, off, old(v.alloc.unused), old(v.alloc.unused) + 1)
    ensures var c, data := old(v.alloc.unused), IsData(old(v.blocks), off);
            && v.alloc.unused == c + 1 + (if data then CLUSTER_LEN else 0)
            && v.alloc.Used() == (if data
                 then old(v.alloc.Used()) + {c} + Range(c + 1, CLUSTER_LEN) - Range(off + 1, CLUSTER_LEN - 1) - {c}
                 else old(v.alloc.Used()) + {c}) - {a}
  {
    hide WellLinked, HonestAll, SetBits, Took, TookAt, Gave, FreeBits, AllBelow, FirstOfCluster, Range, NamePatch,
         EvictReady, RoomPast, Evictable, EvictCode, Adjacent;
    ghost var s, used, mark := Snap(v), v.alloc.Used(), v.alloc.unused;
    SwapReady(s, live, used, mark, v.alloc.bits.Length, a, off);
    BelowEach(used, mark);
    var tmp := v.alloc.GetOffset(v.alloc.unused, 1);
    RangeOne(tmp);
    v.blocks := v.blocks[tmp := v.blocks[off]];
    v.blocks := v.blocks[off := v.blocks[a]];
    var ok := MoveNamelist(v, off, off);
    ghost var run;
    ok, run := EvictBlock(v, off, tmp);
    v.alloc.PutBlocks(a, 1);
  }

  lemma BelowEach(used: set<nat>, mark: nat)
    requires AllBelow(used, mark)
    ensures forall x | x in used :: x < mark
  {
  }

  /** The wanted block is taken. */
  method NameSwap(v: Volume, a: nat, off: nat, ghost live: set<nat>, ghost base: nat) returns (ghost r: map<nat, nat>)
    requires Steady(v, live, base) && a in live && IsName(v.blocks, a) && a != off && 0 < base <= off && off in live
    requires !Adjacent(Snap(v), a, off) && (IsData(v.blocks, off) ==> FirstOfCluster(Snap(v), live, off))
    requires v.alloc.unused + 1 + CLUSTER_LEN <= v.alloc.bits.Length
    modifies v`blocks, v`iBno, v`info, v.alloc, v.alloc.bits
    ensures Moved(r, old(Snap(v)), live, Snap(v)) && Steady(v, r.Values, base)
    ensures StepMap(r, live, a, off, old(v.alloc.unused)) && OthersStay(r, old(v.blocks), a, off)
    ensures old(v.alloc.unused) <= v.alloc.unused <= old(v.alloc.unused) + 1 + CLUSTER_LEN
  {
    hide WellLinked, Moved, SetBits, Claimed, HonestAll, AllBelow, FirstOfCluster, Range, Evictable, EvictMap, StepMap,
         Adjacent, NameOver, Evicted, TellName, EvictReady, RoomPast;
    ghost var s, used, mark, size := Snap(v), v.alloc.Used(), v.alloc.unused, v.alloc.bits.Length;
    SwapReady(s, live, used, mark, size, a, off);
    SwapName(v, a, off, live);
    r := OverMap(s, live, a, off, mark, mark + 1);
    EvictThenName(s, live, a, off, mark, mark + 1);
    NameOverExact(s, live, a, off, mark, mark + 1);
    MovedLinked(r, s, live, Snap(v));
    HonestMoved(r, s, live, Snap(v));
    EvictAccount(s, live, used, mark, size, off, base);
    OverAccount(used, live, EvictMap(s, live, off, mark, mark + 1).Values, a, off, v.alloc.unused);
    PlacedAgain(used, mark, size, live, base, r.Values, v.alloc.Used(), v.alloc.unused);
    OverStep(s, live, a, off, mark);
    OverStay(s, live, a, off, mark);
  }

  lemma OverStay(s: Sys, live: set<nat>, a: nat, off: nat, mark: nat)
    requires WellLinked(s, live) && Evictable(s, live, off, mark, mark + 1)
    ensures OthersStay(OverMap(s, live, a, off, mark, mark + 1), s.disk, a, off)
  {
    hide WellLinked, Evictable;
    EvictValues(s, live, off, mark, mark + 1);
  }

  lemma NotAdjacent(s: Sys, a: nat, b: nat)
    requires IsName(s.disk, a) && !Adjacent(s, a, b)
    ensures s.disk[a].next != b && (!s.disk[a].first ==> s.disk[a].prev != b)
            && (s.disk[a].first ==> RootOf(s, s.disk[a].prev) != b)
  {
  }

  /** The name block at a goes to off, whatever is there but something adjacent. */
  method PlaceName(v: Volume, a: nat, off: nat, ghost live: set<nat>, ghost base: nat) returns (ghost r: map<nat, nat>)
    requires Steady(v, live, base) && a in live && IsName(v.blocks, a) && 0 < base <= off <= a
    requires a != off ==> !Adjacent(Snap(v), a, off)
    requires off in live && IsData(v.blocks, off) ==> FirstOfCluster(Snap(v), live, off)
    requires v.alloc.unused + 1 + CLUSTER_LEN <= v.alloc.bits.Length
    modifies v`blocks, v`iBno, v`info, v.alloc, v.alloc.bits
    ensures Moved(r, old(Snap(v)), live, Snap(v)) && Steady(v, r.Values, base)
    ensures StepMap(r, live, a, off, old(v.alloc.unused)) && OthersStay(r, old(v.blocks), a, off)
    ensures old(v.alloc.unused) <= v.alloc.unused <= old(v.alloc.unused) + 1 + CLUSTER_LEN
  {
    hide WellLinked, Moved, SetBits, Took, TookAt, Gave, HonestAll, FirstOfCluster, Adjacent;
    ghost var s := Snap(v);
    UsedBlock(v.alloc.Used(), v.alloc.unused, v.alloc.bits.Length, live, base, a);
    BitIsUsed(v.alloc.bits[..], off);
    if off == a {
      r := MoveOne(live, off, off);
      MovedNowhere(s, live, r);
      Stay(live, off);
      return;
    }
    var empty := v.alloc.IsRangeEmpty(off, 1);
    if empty {
      r := NameFree(v, a, off, live, base);
    } else {
      assert v.alloc.bits[off];
      r := NameSwap(v, a, off, live, base);
    }
  }
}
