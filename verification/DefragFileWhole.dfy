/** basicbtfs_defrag_file_table_block as a whole. */
module DefragFileWhole {
  import opened Blocks
  import opened Bitmap
  import opened DiskTree
  import opened System
  import opened Relocate
  import opened Defrag
  import opened DefragNode
  import opened DefragTree
  import opened DefragWhole
  import opened DefragTable
  import opened DefragFile

  /** The table of file ino and all its data blocks. */
  ghost function FileBlocks(s: Sys, live: set<nat>, ino: nat): set<nat> {
    set x | x in live && OfFile(s, ino, x)
  }

  ghost predicate OfFile(s: Sys, ino: nat, x: nat) {
    || (ino in s.iBno && x == s.iBno[ino])
    || (IsData(s.disk, x) && x in s.info && s.info[x].ino == ino)
  }

  /** The clusters of file ino. */
  function ClustersOf(s: Sys, ino: nat): seq<Cluster> {
    if ino in s.iBno && IsTable(s.disk, s.iBno[ino]) then s.disk[s.iBno[ino]].clusters else []
  }

  /** The table of the file is at p and lists n clusters; the first c are in place, one
      behind the other, the others lie from o on, the next wanted place. */
  ghost predicate Lined(s: Sys, ino: nat, p: nat, n: nat, c: nat, o: nat) {
    && ino in s.iBno && s.iBno[ino] == p && IsTable(s.disk, p)
    && NrClusters(ClustersOf(s, ino)) == n && c <= n && o == p + 1 + CLUSTER_LEN * c
    && (forall j | 0 <= j < c :: ClustersOf(s, ino)[j] == Cluster(p + 1 + CLUSTER_LEN * j, CLUSTER_LEN))
    && (forall j | c <= j < n :: o <= ClustersOf(s, ino)[j].start)
  }

  /** Everything the routine needs: the file's blocks lie from off on, its table will not
      push away its own data, and there is room for what is in the way. */
  ghost predicate Fileable(v: Volume, ino: nat, off: nat, live: set<nat>, base: nat)
    reads v, v.alloc, v.alloc.bits
  {
    && Steady(v, live, base) && 0 < base <= off && NoStraddle(Snap(v), live, off)
    && ino in v.iBno && IsTable(v.blocks, v.iBno[ino]) && off <= v.iBno[ino]
    && (forall j | 0 <= j < NrClusters(ClustersOf(Snap(v), ino)) :: off <= ClustersOf(Snap(v), ino)[j].start)
    && (v.iBno[ino] != off && off in live ==> !OwnData(Snap(v), v.iBno[ino], off))
    && v.alloc.unused + (1 + CLUSTER_LEN) * (1 + CLUSTER_LEN * NrClusters(ClustersOf(Snap(v), ino)))
         <= v.alloc.bits.Length
  }

  /** A table after a move: as many clusters, where the map says. */
  lemma MovedClusters(r: map<nat, nat>, s: Sys, live: set<nat>, u: Sys, ino: nat)
    requires WellLinked(s, live) && Moved(r, s, live, u) && ino in s.iBno && IsTable(s.disk, s.iBno[ino])
    ensures ino in u.iBno && s.iBno[ino] in r && u.iBno[ino] == r[s.iBno[ino]] && IsTable(u.disk, u.iBno[ino])
    ensures var cs, cs' := ClustersOf(s, ino), ClustersOf(u, ino);
            && NrClusters(cs') == NrClusters(cs) && |cs'| == |cs|
            && forall j | 0 <= j < NrClusters(cs) ::
                 cs'[j].len == CLUSTER_LEN && cs[j].start in r && cs'[j].start == r[cs[j].start]
  {
    hide WellLinked, Moved, NrClusters, Renamed;
    InodeLive(s, live, ino);
    var b := s.iBno[ino];
    MovedInode(r, s, live, u, ino);
    MovedAt(r, s, live, u, b);
    RenamedData(r, s.disk[b], u.disk[r[b]]);
    RenamedTable(r, s.disk[b], u.disk[r[b]]);
    SameLength(r, s.disk[b], u.disk[r[b]]);
    forall j | 0 <= j < NrClusters(s.disk[b].clusters)
      ensures u.disk[r[b]].clusters[j].len == CLUSTER_LEN && s.disk[b].clusters[j].start in r
      ensures u.disk[r[b]].clusters[j].start == r[s.disk[b].clusters[j].start]
    {
      TableRun(s, live, b, j, 0);
      RenamedRun(r, s.disk[b], u.disk[r[b]], j, 0);
    }
  }

  lemma SameLength(r: map<nat, nat>, x: Block, y: Block)
    requires Renamed(r, x, y) && x.TableBlock?
    ensures y.TableBlock? && |y.clusters| == |x.clusters|
  {
  }

  /** The blocks of a file are the images of its blocks. */
  lemma FileImage(r: map<nat, nat>, s: Sys, live: set<nat>, u: Sys, ino: nat)
    requires WellLinked(s, live) && Moved(r, s, live, u)
    ensures FileBlocks(u, r.Values, ino) <= Image(r, FileBlocks(s, live, ino))
  {
    hide WellLinked, Moved, Renamed;
    MovedInjective(r, s, live, u);
    forall y | y in FileBlocks(u, r.Values, ino)
      ensures y in Image(r, FileBlocks(s, live, ino))
    {
      var x: nat :| x in r && r[x] == y;
      FileImageAt(r, s, live, u, ino, x);
      assert x in FileBlocks(s, live, ino);
    }
  }

  lemma FileImageAt(r: map<nat, nat>, s: Sys, live: set<nat>, u: Sys, ino: nat, x: nat)
    requires WellLinked(s, live) && Moved(r, s, live, u) && x in r && OfFile(u, ino, r[x])
    ensures OfFile(s, ino, x)
  {
    hide WellLinked, Renamed, BlockOk;
    MovedInjective(r, s, live, u);
    MovedAt(r, s, live, u, x);
    RenamedData(r, s.disk[x], u.disk[r[x]]);
    if IsData(s.disk, x) {
      StartFacts(s, live, x);
      MovedInfo(r, s, live, u, x);
    }
  }

  /** A cluster's blocks are blocks of its file. */
  lemma ClusterOfFile(s: Sys, live: set<nat>, ino: nat, c: nat)
    requires WellLinked(s, live) && ino in s.iBno && c < NrClusters(ClustersOf(s, ino)) && IsTable(s.disk, s.iBno[ino])
    ensures RunSet(ClustersOf(s, ino)[c].start) <= FileBlocks(s, live, ino)
    ensures forall x | InRun(x, ClustersOf(s, ino)[c].start) ::
              x in live && x in s.info && s.info[x] == FileInfo(ino, c)
  {
    hide WellLinked, NrClusters;
    InodeLive(s, live, ino);
    var tb := s.iBno[ino];
    var a := s.disk[tb].clusters[c].start;
    LiveTable(s, live, tb);
    forall x: nat | InRun(x, a)
      ensures x in live && IsData(s.disk, x) && x in s.info && s.info[x] == FileInfo(ino, c)
    {
      TableRun(s, live, tb, c, x - a);
    }
    forall x | x in RunSet(a)
      ensures x in FileBlocks(s, live, ino)
    {
      RunSetIs(x, a);
    }
  }

  lemma LiveTable(s: Sys, live: set<nat>, tb: nat)
    requires WellLinked(s, live) && tb in live
    ensures BlockOk(s, live, tb)
  {
  }

  /** One more cluster in place. */
  lemma OneMoreLined(s: Sys, live: set<nat>, u: Sys, q: map<nat, nat>, ino: nat, p: nat, n: nat, c: nat, o: nat,
                     mark: nat)
    requires WellLinked(s, live) && Moved(q, s, live, u) && Lined(s, ino, p, n, c, o) && c < n
             && o + CLUSTER_LEN <= mark
    requires ClusterMap(q, live, ClustersOf(s, ino)[c].start, o, mark)
    ensures Lined(u, ino, p, n, c + 1, o + CLUSTER_LEN)
  {
    hide WellLinked, Moved, NrClusters;
    var a := ClustersOf(s, ino)[c].start;
    var cs, cs' := ClustersOf(s, ino), ClustersOf(u, ino);
    InodeLive(s, live, ino);
    MovedInjective(q, s, live, u);
    MovedClusters(q, s, live, u, ino);
    ClusterOfFile(s, live, ino, c);
    assert InRun(a, a);
    forall j | c < j < n
      ensures o + CLUSTER_LEN <= cs'[j].start
    {
      ClusterOfFile(s, live, ino, j);
      assert InRun(cs[j].start, cs[j].start);
      ClearOfPlace(q, live, a, o, mark, cs[j].start);
    }
  }

  /** The place a cluster has gone to is its alone. */
  lemma ClearOfPlace(q: map<nat, nat>, live: set<nat>, a: nat, b: nat, mark: nat, x: nat)
    requires ClusterMap(q, live, a, b, mark) && Injective(q) && x in live && !InRun(x, a) && b <= x
             && b + CLUSTER_LEN <= mark
    requires forall y | InRun(y, a) :: y in live
    ensures b + CLUSTER_LEN <= q[x]
  {
    var y := a + (x - b);
    assert InRun(y, a) ==> y in live && q[y] == x;
  }

  /** The first part, the table, leaves the file ready for its clusters. */
  lemma TableLined(s: Sys, live: set<nat>, u: Sys, r: map<nat, nat>, ino: nat, off: nat, mark: nat)
    requires WellLinked(s, live) && Moved(r, s, live, u) && ino in s.iBno && IsTable(s.disk, s.iBno[ino]) && off < mark
    requires StepMap(r, live, s.iBno[ino], off, mark)
    requires forall j | 0 <= j < NrClusters(ClustersOf(s, ino)) :: off <= ClustersOf(s, ino)[j].start
    ensures Lined(u, ino, off, NrClusters(ClustersOf(s, ino)), 0, off + 1)
  {
    hide WellLinked, Moved, NrClusters;
    var cs, cs' := ClustersOf(s, ino), ClustersOf(u, ino);
    InodeLive(s, live, ino);
    MovedInjective(r, s, live, u);
    MovedClusters(r, s, live, u, ino);
    forall j | 0 <= j < NrClusters(cs)
      ensures off + 1 <= cs'[j].start
    {
      ClusterOfFile(s, live, ino, j);
      var x := cs[j].start;
      assert InRun(x, x);
      RunSetIs(x, x);
      DataNotTable(s, live, ino, x);
    }
  }

  lemma DataNotTable(s: Sys, live: set<nat>, ino: nat, x: nat)
    requires WellLinked(s, live) && ino in s.iBno && IsTable(s.disk, s.iBno[ino]) && x in FileBlocks(s, live, ino)
    requires exists c: nat :: c < NrClusters(ClustersOf(s, ino)) && InRun(x, ClustersOf(s, ino)[c].start)
    ensures x != s.iBno[ino]
  {
    hide WellLinked, NrClusters;
    InodeLive(s, live, ino);
    var c: nat :| c < NrClusters(ClustersOf(s, ino)) && InRun(x, ClustersOf(s, ino)[c].start);
    LiveTable(s, live, s.iBno[ino]);
    TableRun(s, live, s.iBno[ino], c, x - ClustersOf(s, ino)[c].start);
  }

  /** Enough room for the clusters that remain. */
  lemma RoomLeft(n: nat, c: nat)
    requires c < n
    ensures (1 + CLUSTER_LEN) * CLUSTER_LEN * c + (1 + CLUSTER_LEN) * CLUSTER_LEN <= (1 + CLUSTER_LEN) * CLUSTER_LEN * n
  {
  }

  /** The next cluster can be moved. */
  lemma LinedNext(s: Sys, ino: nat, p: nat, n: nat, c: nat, o: nat)
    requires Lined(s, ino, p, n, c, o)
    ensures ino in s.iBno && s.iBno[ino] == p < o && IsTable(s.disk, p) && c <= n <= |s.disk[p].clusters|
    ensures NrClusters(s.disk[p].clusters) == n
    ensures c < n ==> o <= s.disk[p].clusters[c].start && s.disk[p].clusters[c].start != 0
    ensures c == n && n < |s.disk[p].clusters| ==> s.disk[p].clusters[n].start == 0
  {
  }

  /** What a cluster move does to the rest of the volume, seen from the whole file. */
  lemma ClusterWalk(q: map<nat, nat>, s: Sys, live: set<nat>, ino: nat, c: nat, o: nat, mark: nat)
    requires WellLinked(s, live) && ino in s.iBno && IsTable(s.disk, s.iBno[ino]) && c < NrClusters(ClustersOf(s, ino))
    requires ClusterMap(q, live, ClustersOf(s, ino)[c].start, o, mark)
    ensures WalkMap(q, live, FileBlocks(s, live, ino), o, mark)
  {
    hide WellLinked, NrClusters, FileBlocks;
    ClusterOfFile(s, live, ino, c);
    forall x | x in q && x !in FileBlocks(s, live, ino)
      ensures q[x] == x || (o <= x && mark <= q[x])
    {
      RunSetIs(x, ClustersOf(s, ino)[c].start);
    }
  }

  lemma StepWalk(r: map<nat, nat>, s: Sys, live: set<nat>, ino: nat, off: nat, mark: nat)
    requires ino in s.iBno && s.iBno[ino] in live && StepMap(r, live, s.iBno[ino], off, mark)
    ensures WalkMap(r, live, FileBlocks(s, live, ino), off, mark)
  {
  }

  /** Where the routine stands: the table and c of n clusters are in place. */
  ghost predicate Filing(v: Volume, s: Sys, live: set<nat>, base: nat, ino: nat, off: nat, n: nat, c: nat, o: nat,
                         r: map<nat, nat>, mark: nat)
    reads v, v.alloc, v.alloc.bits
  {
    && Moved(r, s, live, Snap(v)) && Steady(v, r.Values, base) && NoStraddle(Snap(v), r.Values, o)
    && Lined(Snap(v), ino, off, n, c, o) && 0 < base <= off && o <= v.alloc.unused
    && WalkMap(r, live, FileBlocks(s, live, ino), off, mark)
    && mark <= v.alloc.unused <= mark + (1 + CLUSTER_LEN) + (1 + CLUSTER_LEN) * CLUSTER_LEN * c
  }

  /** The table. */
  method FileTable(v: Volume, ino: nat, off: nat, ghost live: set<nat>, ghost base: nat)
    returns (ghost r: map<nat, nat>)
    requires Fileable(v, ino, off, live, base)
    modifies v`blocks, v`iBno, v`info, v.alloc, v.alloc.bits
    ensures Filing(v, old(Snap(v)), live, base, ino, off, old(NrClusters(ClustersOf(Snap(v), ino))), 0, off + 1, r,
                   old(v.alloc.unused))
  {
    hide WellLinked, Moved, HonestAll, NoStraddle, SetBits, Placed, NrClusters, FirstOfCluster, Lined, FileBlocks,
         WalkMap, StepMap;
    ghost var s, mark := Snap(v), v.alloc.unused;
    InodeLive(s, live, ino);
    UsedBlock(v.alloc.Used(), mark, v.alloc.bits.Length, live, base, v.iBno[ino]);
    if off in live && IsData(v.blocks, off) {
      StartIsFirst(s, live, off);
      StartFacts(s, live, off);
    }
    r := PlaceTable(v, ino, off, live, base);
    StraddleStep(r, s, live, Snap(v), s.iBno[ino], off, mark);
    TableLined(s, live, Snap(v), r, ino, off, mark);
    StepWalk(r, s, live, ino, off, mark);
  }

  /** One cluster. */
  method FileCluster(v: Volume, ino: nat, c: nat, o0: nat, ghost s: Sys, ghost live: set<nat>, ghost base: nat,
                     ghost off: nat, ghost n: nat, ghost r0: map<nat, nat>, ghost mark: nat)
    returns (o: nat, ghost r: map<nat, nat>)
    requires WellLinked(s, live) && Filing(v, s, live, base, ino, off, n, c, o0, r0, mark) && c < n
    requires mark + (1 + CLUSTER_LEN) * (1 + CLUSTER_LEN * n) <= v.alloc.bits.Length
    modifies v`blocks, v`iBno, v`info, v.alloc, v.alloc.bits
    ensures Filing(v, s, live, base, ino, off, n, c + 1, o, r, mark)
  {
    hide WellLinked, Moved, HonestAll, NoStraddle, SetBits, Placed, NrClusters, Compose, FirstOfCluster, Lined,
         FileBlocks, Image, Injective, ClusterMap, WalkMap;
    ghost var s1, m1 := Snap(v), v.alloc.unused;
    LinedNext(s1, ino, off, n, c, o0);
    RoomLeft(n, c);
    ghost var q;
    o, q := MoveCluster(v, ino, c, o0, r0.Values, base);
    OneMoreLined(s1, r0.Values, Snap(v), q, ino, off, n, c, o0, m1);
    ClusterWalk(q, s1, r0.Values, ino, c, o0, m1);
    FileTwice(s, live, s1, Snap(v), r0, q, ino, off, o0, mark, m1);
    r := Compose(r0, q);
  }

  lemma FileTwice(s: Sys, live: set<nat>, s1: Sys, u: Sys, r: map<nat, nat>, q: map<nat, nat>, ino: nat, off: nat,
                  o: nat, mark: nat, m1: nat)
    requires WellLinked(s, live) && Moved(r, s, live, s1) && Moved(q, s1, r.Values, u) && off <= o && mark <= m1
    requires WalkMap(r, live, FileBlocks(s, live, ino), off, mark)
             && WalkMap(q, r.Values, FileBlocks(s1, r.Values, ino), o, m1)
    ensures Moved(Compose(r, q), s, live, u) && WalkMap(Compose(r, q), live, FileBlocks(s, live, ino), off, mark)
    ensures Compose(r, q).Values == q.Values
  {
    hide WellLinked, Moved, Compose, FileBlocks, Image, Injective, WalkMap;
    MovedTwice(r, q, s, live, s1, u);
    MovedInjective(r, s, live, s1);
    MovedInjective(q, s1, r.Values, u);
    ComposeKeys(r, q);
    FileImage(r, s, live, s1, ino);
    WalkTwice(r, q, live, FileBlocks(s, live, ino), FileBlocks(s1, r.Values, ino), off, o, mark, m1);
  }

  lemma FilingLined(v: Volume, s: Sys, live: set<nat>, base: nat, ino: nat, off: nat, n: nat, c: nat, o: nat,
                    r: map<nat, nat>, mark: nat)
    requires Filing(v, s, live, base, ino, off, n, c, o, r, mark)
    ensures IsTable(v.blocks, off) && c <= n <= |v.blocks[off].clusters|
    ensures c == n || v.blocks[off].clusters[c].start != 0
    ensures c == n && n < |v.blocks[off].clusters| ==> v.blocks[off].clusters[n].start == 0
  {
    hide Moved, Steady, NoStraddle, WalkMap, Lined;
    LinedNext(Snap(v), ino, off, n, c, o);
  }

  /** The file's table lands on off and its n clusters on the blocks behind it, each in one
      piece and in order; the block graph is renamed consistently, so that every file, tree
      and name list reads as before; nothing else below off moves. */
  method DefragFileTableBlock(v: Volume, ino: nat, off: nat, ghost live: set<nat>, ghost base: nat)
    returns (ok: bool, o: nat, ghost r: map<nat, nat>)
    requires Fileable(v, ino, off, live, base)
    modifies v`blocks, v`iBno, v`info, v.alloc, v.alloc.bits
    ensures ok
            && Lined(Snap(v), ino, off, old(NrClusters(ClustersOf(Snap(v), ino))),
                     old(NrClusters(ClustersOf(Snap(v), ino))), o)
    ensures Moved(r, old(Snap(v)), live, Snap(v)) && ReadsSame(old(Snap(v)), live, Snap(v), r, v.t)
    ensures Steady(v, r.Values, base) && NoStraddle(Snap(v), r.Values, o) && o <= v.alloc.unused
    ensures WalkMap(r, live, old(FileBlocks(Snap(v), live, ino)), off, old(v.alloc.unused))
    ensures old(v.alloc.unused) <= v.alloc.unused
              <= old(v.alloc.unused) + (1 + CLUSTER_LEN) * (1 + CLUSTER_LEN * old(NrClusters(ClustersOf(Snap(v), ino))))
  {
    hide WellLinked, Moved, HonestAll, SetBits, Placed, NrClusters, ReadsSame, Lined, FileBlocks, WalkMap, Filing,
         NoStraddle;
    ghost var s, mark, n := Snap(v), v.alloc.unused, NrClusters(ClustersOf(Snap(v), ino));
    r := FileTable(v, ino, off, live, base);
    o := off + 1;
    var c := 0;
    FilingLined(v, s, live, base, ino, off, n, c, o, r, mark);
    while c < |v.blocks[off].clusters| && v.blocks[off].clusters[c].start != 0
      invariant c <= n && IsTable(v.blocks, off) && Filing(v, s, live, base, ino, off, n, c, o, r, mark)
      decreases n - c
    {
      FilingLined(v, s, live, base, ino, off, n, c, o, r, mark);
      o, r := FileCluster(v, ino, c, o, s, live, base, off, n, r, mark);
      c := c + 1;
      FilingLined(v, s, live, base, ino, off, n, c, o, r, mark);
    }
    FilingLined(v, s, live, base, ino, off, n, c, o, r, mark);
    FilingDone(v, s, live, base, ino, off, n, o, r, mark);
    MovedReads(r, s, live, Snap(v), v.t);
    ok := true;
  }

  lemma FilingDone(v: Volume, s: Sys, live: set<nat>, base: nat, ino: nat, off: nat, n: nat, o: nat, r: map<nat, nat>,
                   mark: nat)
    requires Filing(v, s, live, base, ino, off, n, n, o, r, mark)
    ensures Moved(r, s, live, Snap(v)) && Steady(v, r.Values, base) && NoStraddle(Snap(v), r.Values, o)
            && o <= v.alloc.unused
    ensures Lined(Snap(v), ino, off, n, n, o) && WalkMap(r, live, FileBlocks(s, live, ino), off, mark)
    ensures mark <= v.alloc.unused <= mark + (1 + CLUSTER_LEN) * (1 + CLUSTER_LEN * n)
  {
  }
}
