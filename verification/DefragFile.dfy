/** The rest of basicbtfs_defrag_file_table_block: all clusters of a file go to consecutive
    blocks behind its table. A cluster moves block by block and may overlap its new place; the
    blocks in the way belong to anything, so that whole evictions happen while the cluster is
    in two pieces. State w is the block graph in which the cluster has not begun to move. */
module DefragFile {
  import opened Blocks
  import opened Bitmap
  import opened DiskTree
  import opened System
  import opened Relocate
  import opened DefragStep
  import opened Defrag
  import opened DefragNode
  import opened DefragTree
  import opened DefragEvict
  import opened DefragTable

  // -------------------------------------------------- a cluster in two pieces

  /** Volume state u is w with the first k blocks of the cluster at a copied to b. */
  ghost predicate HalfMoved(u: Sys, w: Sys, live: set<nat>, a: nat, b: nat, k: nat, info: FileInfo) {
    Mirrors(u, w, live - Range(a, k)) && forall j | 0 <= j < k :: PieceAt(u, w, a, b, j, info)
  }

  ghost predicate PieceAt(u: Sys, w: Sys, a: nat, b: nat, j: nat, info: FileInfo) {
    a + j in w.disk && b + j in u.disk && u.disk[b + j] == w.disk[a + j] && b + j in u.info && u.info[b + j] == info
  }

  /** Nothing but the cluster itself is left where the first k blocks have gone. */
  ghost predicate Cleared(live: set<nat>, a: nat, b: nat, k: nat) {
    forall y | y in live && b <= y < b + k :: InRun(y, a)
  }

  /** The cluster that moves: it starts at a, belongs to info, and its table lies below b. */
  ghost predicate Heading(w: Sys, live: set<nat>, a: nat, b: nat, info: FileInfo) {
    && FirstOfCluster(w, live, a) && a in w.info && w.info[a] == info && 0 < b <= a
    && info.ino in w.iBno && w.iBno[info.ino] < b
  }

  ghost predicate Under(v: Volume, w: Sys, live: set<nat>, rest: set<nat>, base: nat, a: nat, b: nat, k: nat,
                        info: FileInfo)
    reads v, v.alloc, v.alloc.bits
  {
    && v.Ready() && WellLinked(w, live) && HonestAll(w.disk, live) && NoStraddle(w, live, b)
    && v.alloc.Used() == rest + (live - Range(a, k)) + Range(b, k) && rest !! live && AllBelow(rest, base)
    && base <= b && AllBelow(rest + live, v.alloc.unused) && v.alloc.unused <= v.alloc.bits.Length
    && Heading(w, live, a, b, info) && Cleared(live, a, b, k) && k <= CLUSTER_LEN
    && HalfMoved(Snap(v), w, live, a, b, k, info)
  }

  // ------------------------------------------------------------ one block more

  function Renote(u: Sys, to: nat, from: nat, info: FileInfo): Sys {
    u.(info := u.info[to := info][from := FileInfo(0, 0)])
  }

  /** A block of the cluster that has not been copied yet. */
  lemma NextPiece(u: Sys, w: Sys, live: set<nat>, a: nat, b: nat, k: nat, info: FileInfo)
    requires WellLinked(w, live) && Heading(w, live, a, b, info) && HalfMoved(u, w, live, a, b, k, info)
             && k < CLUSTER_LEN
    ensures a + k in live && a + k !in Range(a, k) && MirrorsAt(u, w, a + k) && IsData(w.disk, a + k)
    ensures a + k in w.info && w.info[a + k] == info
    ensures Range(a, k + 1) == Range(a, k) + {a + k} && Range(b, k + 1) == Range(b, k) + {b + k}
  {
    hide WellLinked, FirstOfCluster, Range, MirrorsAt;
    ClusterRun(w, live, a, a + k);
    RangeStep(a, k);
    RangeStep(b, k);
  }

  /** The cluster is where it should be. */
  lemma PieceStays(u: Sys, w: Sys, live: set<nat>, a: nat, k: nat, info: FileInfo)
    requires WellLinked(w, live) && Heading(w, live, a, a, info) && HalfMoved(u, w, live, a, a, k, info)
             && k < CLUSTER_LEN
    ensures HalfMoved(u, w, live, a, a, k + 1, info)
  {
    hide WellLinked, FirstOfCluster, Range, Mirrors;
    NextPiece(u, w, live, a, a, k, info);
    MirrorsLess(u, w, live - Range(a, k), live - Range(a, k + 1));
  }

  lemma MirrorsLess(u: Sys, w: Sys, k: set<nat>, k': set<nat>)
    requires Mirrors(u, w, k) && k' <= k
    ensures Mirrors(u, w, k')
  {
  }

  /** The next place is free. */
  lemma PieceFree(u: Sys, w: Sys, live: set<nat>, a: nat, b: nat, k: nat, info: FileInfo)
    requires WellLinked(w, live) && Heading(w, live, a, b, info) && HalfMoved(u, w, live, a, b, k, info)
             && k < CLUSTER_LEN
    requires b != a && b + k !in live - Range(a, k)
    ensures a + k in u.disk
            && HalfMoved(Renote(Put(u, b + k, u.disk[a + k]), b + k, a + k, info), w, live, a, b, k + 1, info)
  {
    hide WellLinked, FirstOfCluster, Range;
    NextPiece(u, w, live, a, b, k, info);
    var u' := Renote(Put(u, b + k, u.disk[a + k]), b + k, a + k, info);
    forall y | y in live - Range(a, k + 1)
      ensures MirrorsAt(u', w, y)
    {
      assert MirrorsAt(u, w, y);
    }
    forall j | 0 <= j < k + 1
      ensures PieceAt(u', w, a, b, j, info)
    {
      if j < k { assert PieceAt(u, w, a, b, j, info); }
    }
  }

  /** The next place is taken. */
  lemma PieceOver(u: Sys, w: Sys, live: set<nat>, a: nat, b: nat, k: nat, info: FileInfo, c: nat, run: nat)
    requires WellLinked(w, live) && Heading(w, live, a, b, info) && HalfMoved(u, w, live, a, b, k, info)
             && k < CLUSTER_LEN
    requires b != a && Evictable(w, live, b + k, c, run) && Going(w, b + k) !! RunSet(a) && a + k < c && c <= run
    ensures a + k in u.disk && b + k in u.disk && b + k in w.disk
    ensures HalfMoved(Renote(EvictCode(Copies(u, b + k, c, u.disk[a + k]), b + k, c, run), b + k, a + k, info),
                      Evicted(w, b + k, c, run), EvictMap(w, live, b + k, c, run).Values, a, b, k + 1, info)
  {
    hide WellLinked, FirstOfCluster, Range, RunSet, Mirrors, Evictable, EvictMap, EvictCode, Evicted, PieceAt, Going,
         Coming, Aside;
    NextPiece(u, w, live, a, b, k, info);
    var o, x, done := b + k, u.disk[a + k], Range(a, k);
    PiecesAside(w, live, a, b, k, info);
    ToEvict(w, live, o, c, run);
    EvictMirrors(u, w, live, done, o, c, run, x);
    EvictFree(w, live, o, c, run);
    var u2, w', now := EvictCode(Copies(u, o, c, x), o, c, run), Evicted(w, o, c, run), EvictMap(w, live, o, c,
            run).Values;
    var u3 := Renote(u2, o, a + k, info);
    RenoteMirrors(u2, w', now - done, o, a + k, info);
    MirrorsLess(u3, w', now - done - {o, a + k}, now - Range(a, k + 1));
    forall j | 0 <= j < k + 1
      ensures PieceAt(u3, w', a, b, j, info)
    {
      PieceKept(u, w, live, a, b, k, info, c, run, j);
    }
  }

  lemma RenoteMirrors(u: Sys, w: Sys, k: set<nat>, to: nat, from: nat, info: FileInfo)
    requires Mirrors(u, w, k)
    ensures Mirrors(Renote(u, to, from, info), w, k - {to, from})
  {
    forall y | y in k - {to, from}
      ensures MirrorsAt(Renote(u, to, from, info), w, y)
    {
      assert MirrorsAt(u, w, y);
    }
  }

  /** The copied blocks have nothing to do with the eviction. */
  lemma PiecesAside(w: Sys, live: set<nat>, a: nat, b: nat, k: nat, info: FileInfo)
    requires WellLinked(w, live) && Heading(w, live, a, b, info) && Going(w, b + k) !! RunSet(a) && k <= CLUSTER_LEN
    ensures Aside(w, Range(a, k), b + k) && Range(a, k) <= RunSet(a)
  {
    hide WellLinked, FirstOfCluster;
    forall y | y in Range(a, k)
      ensures IsData(w.disk, y) && y in RunSet(a)
    {
      ClusterRun(w, live, a, y);
    }
  }

  /** An eviction elsewhere leaves a data block. */
  lemma EvictKeeps(w: Sys, live: set<nat>, b: nat, c: nat, run: nat, y: nat)
    requires WellLinked(w, live) && Evictable(w, live, b, c, run) && y in live && IsData(w.disk, y) && y !in Going(w, b)
    ensures b in w.disk
    ensures var e, w' := EvictMap(w, live, b, c, run), Evicted(w, b, c, run);
            && e[y] == y && y in w'.disk && w'.disk[y] == w.disk[y]
            && (y in w.info ==> y in w'.info && w'.info[y] == w.info[y])
  {
    hide WellLinked, Moved, Evictable, EvictMap, Evicted, Renamed, Going, Coming;
    ToEvict(w, live, b, c, run);
    var e, w' := EvictMap(w, live, b, c, run), Evicted(w, b, c, run);
    EvictedMoved(w, live, b, c, run);
    EvictValues(w, live, b, c, run);
    MovedAt(e, w, live, w', y);
    RenamedData(e, w.disk[y], w'.disk[y]);
    if y in w.info { MovedInfo(e, w, live, w', y); }
  }

  lemma PieceKept(u: Sys, w: Sys, live: set<nat>, a: nat, b: nat, k: nat, info: FileInfo, c: nat, run: nat, j: nat)
    requires WellLinked(w, live) && Heading(w, live, a, b, info) && HalfMoved(u, w, live, a, b, k, info)
             && k < CLUSTER_LEN
    requires b != a && Evictable(w, live, b + k, c, run) && Going(w, b + k) !! RunSet(a) && a + k < c && c <= run
             && j <= k
    requires a + k in u.disk && b + k in u.disk && b + k in w.disk
    ensures PieceAt(Renote(EvictCode(Copies(u, b + k, c, u.disk[a + k]), b + k, c, run), b + k, a + k, info),
                    Evicted(w, b + k, c, run), a, b, j, info)
  {
    hide WellLinked, FirstOfCluster, Range, RunSet, Mirrors, Evictable, EvictMap, EvictCode, Evicted, Going, Coming,
         Aside, Owned;
    NextPiece(u, w, live, a, b, k, info);
    var o, x := b + k, u.disk[a + k];
    PiecesAside(w, live, a, b, k, info);
    ClusterRun(w, live, a, a + j);
    RunSetIs(a + j, a);
    EvictKeeps(w, live, o, c, run, a + j);
    EvictInodes(u, w, live, Range(a, k), o, c, run, x);
    var u1 := Copies(u, o, c, x);
    if IsData(w.disk, o) {
      EvictOwned(u, w, live, Range(a, k), o, c, run, x);
      OwnedTable(u1, o);
    }
    if j < k { assert PieceAt(u, w, a, b, j, info); }
    EvictLeaves(u1, o, c, run, b + j);
    if j < k { EvictInfo(u1, o, c, run, b + j); }
  }

  lemma OwnedTable(u: Sys, b: nat)
    requires Owned(u, b)
    ensures b in u.info && u.info[b].ino in u.iBno && IsTable(u.disk, u.iBno[u.info[b].ino])
  {
  }

  // ----------------------------------------------------- what the place holds

  /** What lies at the next place is not of the moving cluster, and a cluster starts there
      if it is data. */
  lemma InTheWay(w: Sys, live: set<nat>, a: nat, b: nat, k: nat, info: FileInfo)
    requires WellLinked(w, live) && Heading(w, live, a, b, info) && Cleared(live, a, b, k) && NoStraddle(w, live, b)
    requires b != a && k < CLUSTER_LEN && b + k in live - Range(a, k)
    ensures IsData(w.disk, b + k) ==> FirstOfCluster(w, live, b + k)
    ensures b + k !in RunSet(a)
  {
    hide WellLinked, FirstOfCluster, StartOf;
    var o := b + k;
    RunSetIs(o, a);
    assert InRun(o, a) ==> Within(o, a, k);
    if IsData(w.disk, o) {
      StartFacts(w, live, o);
      if StartOf(w, o) < o {
        SameCluster(w, live, a, o);
      }
    }
  }

  lemma StartFacts(w: Sys, live: set<nat>, y: nat)
    requires WellLinked(w, live) && y in live && IsData(w.disk, y)
    ensures StartOf(w, y) in live && IsData(w.disk, StartOf(w, y)) && StartOf(w, y) <= y < StartOf(w, y) + CLUSTER_LEN
    ensures y in w.info && StartOf(w, y) in w.info && w.info[StartOf(w, y)] == w.info[y]
    ensures StartOf(w, y) == y ==> FirstOfCluster(w, live, y)
  {
    hide NrClusters;
    assert BlockOk(w, live, y);
    var tb := w.iBno[w.info[y].ino];
    assert BlockOk(w, live, tb);
    TableRun(w, live, tb, w.info[y].cluster, 0);
  }

  /** Clusters do not overlap. */
  lemma SameCluster(w: Sys, live: set<nat>, a: nat, y: nat)
    requires WellLinked(w, live) && FirstOfCluster(w, live, a) && y in live && IsData(w.disk, y)
             && InRun(StartOf(w, y), a)
    ensures StartOf(w, y) == a && InRun(y, a)
  {
    hide WellLinked;
    ClusterFacts(w, live, a);
    StartFacts(w, live, y);
    ClusterRun(w, live, a, StartOf(w, y));
  }

  /** Nothing below b moves, and what moves goes past the mark. */
  ghost predicate UpMap(r: map<nat, nat>, live: set<nat>, b: nat, mark: nat) {
    r.Keys == live && forall x | x in r :: r[x] == x || (b <= x && mark <= r[x])
  }

  lemma StraddleKept(r: map<nat, nat>, s: Sys, live: set<nat>, u: Sys, b: nat, mark: nat)
    requires WellLinked(s, live) && Moved(r, s, live, u) && NoStraddle(s, live, b) && UpMap(r, live, b, mark)
             && b <= mark
    ensures NoStraddle(u, r.Values, b)
  {
    hide WellLinked, Moved, StartOf, Renamed;
    MovedInjective(r, s, live, u);
    forall y' | y' in r.Values && IsData(u.disk, y') && b <= y'
      ensures b <= StartOf(u, y')
    {
      var y :| y in r && r[y] == y';
      MovedAt(r, s, live, u, y);
      RenamedData(r, s.disk[y], u.disk[y']);
      MovedStart(r, s, live, u, y);
    }
  }

  lemma EvictUp(w: Sys, live: set<nat>, b: nat, o: nat, mark: nat)
    requires WellLinked(w, live) && Evictable(w, live, o, mark, mark + 1) && b <= o
    ensures UpMap(EvictMap(w, live, o, mark, mark + 1), live, b, mark)
  {
    hide WellLinked, Evictable;
    EvictValues(w, live, o, mark, mark + 1);
    RunSetAbove(o);
    RunSetAbove(mark + 1);
  }

  lemma HeadingKept(w: Sys, live: set<nat>, a: nat, b: nat, info: FileInfo, o: nat, c: nat, run: nat)
    requires WellLinked(w, live) && Heading(w, live, a, b, info) && Evictable(w, live, o, c, run)
             && Going(w, o) !! RunSet(a) && b <= o
    ensures o in w.disk && Heading(Evicted(w, o, c, run), EvictMap(w, live, o, c, run).Values, a, b, info)
  {
    hide WellLinked, Moved, Evictable, Evicted, EvictMap, Going, Coming, NrClusters, Renamed;
    ToEvict(w, live, o, c, run);
    var e, w' := EvictMap(w, live, o, c, run), Evicted(w, o, c, run);
    EvictedMoved(w, live, o, c, run);
    EvictValues(w, live, o, c, run);
    RunSetIs(a, a);
    EvictKeeps(w, live, o, c, run, a);
    ClusterFacts(w, live, a);
    var tb := w.iBno[info.ino];
    PlaceLow(w, o, tb);
    MovedInode(e, w, live, w', info.ino);
    MovedAt(e, w, live, w', a);
    MovedDataOk(e, w, live, w', a);
    MovedAt(e, w, live, w', tb);
    ClusterUsed(w, live, a);
    RenamedRun(e, w.disk[tb], w'.disk[tb], info.cluster, 0);
  }

  lemma PlaceLow(w: Sys, o: nat, x: nat)
    requires x < o
    ensures x !in Going(w, o)
  {
  }

  lemma ClearedMore(w: Sys, live: set<nat>, a: nat, b: nat, k: nat, mark: nat)
    requires Cleared(live, a, b, k) && b + k < mark && mark >= b + CLUSTER_LEN && k < CLUSTER_LEN
    requires WellLinked(w, live) && Evictable(w, live, b + k, mark, mark + 1)
    ensures Cleared(EvictMap(w, live, b + k, mark, mark + 1).Values, a, b, k + 1)
  {
    hide WellLinked, Evictable, EvictMap;
    EvictValues(w, live, b + k, mark, mark + 1);
    RunSetAbove(mark + 1);
  }

  // ------------------------------------------------------------ the methods

  /** What the bitmap says about the next place. */
  lemma NextPlace(used: set<nat>, rest: set<nat>, live: set<nat>, base: nat, a: nat, b: nat, k: nat, mark: nat)
    requires used == rest + (live - Range(a, k)) + Range(b, k) && AllBelow(rest, base) && AllBelow(rest + live, mark)
             && base <= b <= a
    requires a + (CLUSTER_LEN - 1) in live && k < CLUSTER_LEN
    ensures b + k in used <==> b + k in live - Range(a, k)
    ensures AllBelow(used, mark) && AllBelow(live, mark) && b + CLUSTER_LEN <= a + CLUSTER_LEN <= mark
  {
  }

  lemma LastOfCluster(w: Sys, live: set<nat>, a: nat, b: nat, info: FileInfo)
    requires WellLinked(w, live) && Heading(w, live, a, b, info)
    ensures a + (CLUSTER_LEN - 1) in live && w.iBno[info.ino] in live && IsTable(w.disk, w.iBno[info.ino])
    ensures info.cluster < |w.disk[w.iBno[info.ino]].clusters|
    ensures w.disk[w.iBno[info.ino]].clusters[info.cluster] == Cluster(a, CLUSTER_LEN)
  {
    hide WellLinked;
    ClusterRun(w, live, a, a + (CLUSTER_LEN - 1));
    ClusterFacts(w, live, a);
    ClusterStart(w, live, a);
  }

  method PieceToFree(v: Volume, a: nat, b: nat, k: nat, info: FileInfo, ghost w: Sys, ghost live: set<nat>,
                     ghost rest: set<nat>, ghost base: nat)
    requires Under(v, w, live, rest, base, a, b, k, info) && k < CLUSTER_LEN && a != b
    requires b + k < v.alloc.bits.Length && !v.alloc.bits[b + k]
    modifies v`blocks, v`info, v.alloc, v.alloc.bits
    ensures Under(v, w, live, rest, base, a, b, k + 1, info) && v.alloc.unused == old(v.alloc.unused)
  {
    hide WellLinked, HonestAll, NoStraddle, Heading, HalfMoved, SetBits, Took, TookAt, Gave, FreeBits, AllBelow, Range,
         ClearRun;
    ghost var u, used, mark := Snap(v), v.alloc.Used(), v.alloc.unused;
    HeadingAt(w, live, a, b, info);
    LastOfCluster(w, live, a, b, info);
    BitIsUsed(v.alloc.bits[..], b + k);
    NextPlace(used, rest, live, base, a, b, k, mark);
    BelowAt(live, mark, a + (CLUSTER_LEN - 1));
    NextPiece(u, w, live, a, b, k, info);
    PieceFree(u, w, live, a, b, k, info);
    var new_ := v.alloc.GetOffset(b + k, 1);
    FreeAtOnce(old(v.alloc.bits[..]), b + k, new_);
    v.blocks := v.blocks[new_ := v.blocks[a + k]];
    v.alloc.PutBlocks(a + k, 1);
    v.info := v.info[new_ := info];
    v.info := v.info[a + k := FileInfo(0, 0)];
    FreeAccount(used, rest, live, a, b, k);
    ClearedFree(live, a, b, k);
  }

  lemma HeadingAt(w: Sys, live: set<nat>, a: nat, b: nat, info: FileInfo)
    requires Heading(w, live, a, b, info)
    ensures 0 < b <= a && info.ino in w.iBno && w.iBno[info.ino] < b && a in live && FirstOfCluster(w, live, a)
  {
  }

  lemma ClusterLive(w: Sys, live: set<nat>, a: nat)
    requires WellLinked(w, live) && FirstOfCluster(w, live, a)
    ensures RunSet(a) <= live
  {
    hide WellLinked, FirstOfCluster;
    forall y | y in RunSet(a)
      ensures y in live
    {
      ClusterRun(w, live, a, y);
    }
  }

  lemma BelowAt(s: set<nat>, mark: nat, x: nat)
    requires AllBelow(s, mark) && x in s
    ensures x < mark
  {
  }

  lemma FreeAccount(used: set<nat>, rest: set<nat>, live: set<nat>, a: nat, b: nat, k: nat)
    requires used == rest + (live - Range(a, k)) + Range(b, k) && rest !! live
    requires a + k in live && b < a
    ensures used + {b + k} - {a + k} == rest + (live - Range(a, k + 1)) + Range(b, k + 1)
  {
    RangeStep(a, k);
    RangeStep(b, k);
    assert a + k !in Range(b, k + 1);
  }

  lemma ClearedFree(live: set<nat>, a: nat, b: nat, k: nat)
    requires Cleared(live, a, b, k) && b + k !in live - Range(a, k) && k < CLUSTER_LEN
    ensures Cleared(live, a, b, k + 1)
  {
  }

  /** The way is cleared and the block copied: what the code does to the volume. */
  method CopyOver(v: Volume, a: nat, b: nat, k: nat, info: FileInfo, ghost w: Sys, ghost live: set<nat>,
                  ghost rest: set<nat>, ghost base: nat)
    requires Under(v, w, live, rest, base, a, b, k, info) && k < CLUSTER_LEN && a != b && b + k in live - Range(a, k)
    requires Evictable(w, live, b + k, v.alloc.unused, v.alloc.unused + 1) && Aside(w, Range(a, k), b + k)
    requires v.alloc.unused + 1 + CLUSTER_LEN <= v.alloc.bits.Length
    modifies v`blocks, v`iBno, v`info, v.alloc, v.alloc.bits
    ensures v.Ready() && a + k in old(v.blocks) && b + k in old(v.blocks) && b + k in w.disk
    ensures var c := old(v.alloc.unused);
            Snap(v) == Renote(EvictCode(Copies(old(Snap(v)), b + k, c, old(v.blocks[a + k])), b + k, c, c + 1), b + k,
                              a + k, info)
    ensures var c, data := old(v.alloc.unused), IsData(w.disk, b + k);
            && v.alloc.unused == c + 1 + (if data then CLUSTER_LEN else 0)
            && v.alloc.Used() == (if data
                 then old(v.alloc.Used()) + {c} + Range(c + 1, CLUSTER_LEN) - Range(b + k + 1, CLUSTER_LEN - 1) - {c}
                 else old(v.alloc.Used()) + {c}) - {a + k}
  {
    hide WellLinked, Moved, HonestAll, NoStraddle, Heading, HalfMoved, SetBits, Took, TookAt, Gave, FreeBits, AllBelow,
         Range, RunSet, FirstOfCluster, EvictReady, RoomPast, Evictable, EvictCode, Evicted, Mirrors, Aside, Cleared;
    ghost var u, used, mark, size, done, o := Snap(v), v.alloc.Used(), v.alloc.unused, v.alloc.bits.Length, Range(a,
            k), b + k;
    HeadingAt(w, live, a, b, info);
    CopyReady(u, w, live, rest, used, mark, size, base, a, b, k, info);
    var tmp := v.alloc.GetOffset(v.alloc.unused, 1);
    RangeOne(tmp);
    var x := v.blocks[a + k];
    v.blocks := v.blocks[tmp := v.blocks[b + k]];
    v.blocks := v.blocks[b + k := x];
    ReadyToEvict(u, w, live, done, o, tmp, mark + 1, x, size);
    EvictInodes(u, w, live, done, o, tmp, mark + 1, x);
    ghost var ok;
    ghost var run;
    ok, run := EvictBlock(v, b + k, tmp);
    v.alloc.PutBlocks(a + k, 1);
    v.info := v.info[b + k := info];
    v.info := v.info[a + k := FileInfo(0, 0)];
  }

  lemma CopyReady(u: Sys, w: Sys, live: set<nat>, rest: set<nat>, used: set<nat>, mark: nat, size: nat, base: nat,
                  a: nat, b: nat, k: nat, info: FileInfo)
    requires WellLinked(w, live) && Heading(w, live, a, b, info) && HalfMoved(u, w, live, a, b, k, info)
             && k < CLUSTER_LEN && HonestAll(w.disk, live)
    requires used == rest + (live - Range(a, k)) + Range(b, k) && AllBelow(rest, base) && AllBelow(rest + live, mark)
             && base <= b <= a
    requires Evictable(w, live, b + k, mark, mark + 1) && Aside(w, Range(a, k), b + k) && b + k in live - Range(a, k)
    requires mark + 1 + CLUSTER_LEN <= size
    ensures (forall x | x in used :: x < mark) && AllBelow(live, size + 1) && Mirrors(u, w, live - Range(a, k))
            && mark > 0
    ensures a + k in u.disk && b + k in u.disk && a + k < mark && b + k < mark && a + k != mark
            && u.disk[b + k] == w.disk[b + k]
    ensures IsData(w.disk, b + k) ==>
              RoomPast(Copies(u, b + k, mark, u.disk[a + k]), used + {mark}, mark + 1, size, b + k, mark)
  {
    hide WellLinked, HonestAll, FirstOfCluster, Evictable, Aside, Mirrors, Range, RoomPast, AllBelow;
    LastOfCluster(w, live, a, b, info);
    NextPlace(used, rest, live, base, a, b, k, mark);
    NextPiece(u, w, live, a, b, k, info);
    MirrorAt(u, w, live, Range(a, k), b + k);
    BelowAt(live, mark, a + k);
    BelowAt(live, mark, b + k);
    MarkFree(used, mark);
    BelowMore(live, mark, size);
    EvictFirst(w, live, b + k, mark, mark + 1);
    RoomToEvict(u, w, live, Range(a, k), used, mark, size, b + k, u.disk[a + k]);
  }

  lemma EvictFirst(w: Sys, live: set<nat>, b: nat, c: nat, run: nat)
    requires Evictable(w, live, b, c, run)
    ensures b in live && (IsData(w.disk, b) ==> FirstOfCluster(w, live, b))
  {
  }

  method PieceToTaken(v: Volume, a: nat, b: nat, k: nat, info: FileInfo, ghost w: Sys, ghost live: set<nat>,
                      ghost rest: set<nat>, ghost base: nat)
    returns (ghost e: map<nat, nat>, ghost w': Sys)
    requires Under(v, w, live, rest, base, a, b, k, info) && k < CLUSTER_LEN && a != b
    requires b + k < v.alloc.bits.Length && v.alloc.bits[b + k]
    requires v.alloc.unused + 1 + CLUSTER_LEN <= v.alloc.bits.Length
    modifies v`blocks, v`iBno, v`info, v.alloc, v.alloc.bits
    ensures Moved(e, w, live, w') && UpMap(e, live, b, old(v.alloc.unused))
    ensures Under(v, w', e.Values, rest, base, a, b, k + 1, info)
    ensures old(v.alloc.unused) <= v.alloc.unused <= old(v.alloc.unused) + 1 + CLUSTER_LEN
  {
    hide WellLinked, Moved, HonestAll, NoStraddle, Heading, HalfMoved, SetBits, AllBelow, Range, RunSet,
         FirstOfCluster, Evictable, EvictCode, Evicted, Mirrors, Aside, EvictMap, UpMap, Cleared, Going, Coming;
    ghost var u, used, mark, o := Snap(v), v.alloc.Used(), v.alloc.unused, b + k;
    BitIsUsed(v.alloc.bits[..], o);
    TakenFacts(u, w, live, rest, used, mark, v.alloc.bits.Length, base, a, b, k, info);
    CopyOver(v, a, b, k, info, w, live, rest, base);
    e, w' := EvictMap(w, live, o, mark, mark + 1), Evicted(w, o, mark, mark + 1);
    EvictedMoved(w, live, o, mark, mark + 1);
    EvictUp(w, live, b, o, mark);
    MovedLinked(e, w, live, w');
    HonestMoved(e, w, live, w');
    StraddleKept(e, w, live, w', b, mark);
    HeadingKept(w, live, a, b, info, o, mark, mark + 1);
    PieceOver(u, w, live, a, b, k, info, mark, mark + 1);
    ClearedMore(w, live, a, b, k, mark);
    PieceAccount(w, live, used, rest, mark, base, a, b, k);
  }

  /** What lies at a taken place can be cleared away. */
  lemma TakenFacts(u: Sys, w: Sys, live: set<nat>, rest: set<nat>, used: set<nat>, mark: nat, size: nat, base: nat,
                   a: nat, b: nat, k: nat, info: FileInfo)
    requires WellLinked(w, live) && Heading(w, live, a, b, info) && HalfMoved(u, w, live, a, b, k, info)
             && k < CLUSTER_LEN && a != b
    requires Cleared(live, a, b, k) && NoStraddle(w, live, b) && AllBelow(rest, base) && AllBelow(rest + live, mark)
             && base <= b
    requires used == rest + (live - Range(a, k)) + Range(b, k) && b + k in used && mark + 1 + CLUSTER_LEN <= size
    ensures b + k in live - Range(a, k) && Evictable(w, live, b + k, mark, mark + 1) && Aside(w, Range(a, k), b + k)
    ensures Going(w, b + k) !! RunSet(a) && Range(a, k + 1) <= RunSet(a) && RunSet(a) <= live && a + k in live && b < a
    ensures a + k < mark && b + CLUSTER_LEN <= mark
  {
    hide WellLinked, NoStraddle, Heading, HalfMoved, AllBelow, Range, RunSet, FirstOfCluster, Evictable, Mirrors,
         Aside, Cleared, Going;
    var o, done := b + k, Range(a, k);
    HeadingAt(w, live, a, b, info);
    LastOfCluster(w, live, a, b, info);
    NextPlace(used, rest, live, base, a, b, k, mark);
    NextPiece(u, w, live, a, b, k, info);
    InTheWay(w, live, a, b, k, info);
    HalfMirrors(u, w, live, a, b, k, info);
    RunSetIs(a + k, a);
    TheOther(w, live, a, o);
    ClusterLive(w, live, a);
    PiecesAside(w, live, a, b, k, info);
    RoomToEvict(u, w, live, done, used, mark, size, o, DataBlock([]));
    BelowAt(live, mark, a + k);
  }

  lemma HalfMirrors(u: Sys, w: Sys, live: set<nat>, a: nat, b: nat, k: nat, info: FileInfo)
    requires HalfMoved(u, w, live, a, b, k, info)
    ensures Mirrors(u, w, live - Range(a, k))
  {
  }

  lemma MarkFree(used: set<nat>, mark: nat)
    requires AllBelow(used, mark)
    ensures forall x | x in used :: x < mark
  {
  }

  lemma BelowMore(s: set<nat>, mark: nat, size: nat)
    requires AllBelow(s, mark) && mark <= size
    ensures AllBelow(s, size + 1)
  {
  }

  /** Two clusters are the same or have no block in common. */
  lemma TheOther(w: Sys, live: set<nat>, a: nat, o: nat)
    requires WellLinked(w, live) && FirstOfCluster(w, live, a) && o !in RunSet(a)
    requires IsData(w.disk, o) ==> FirstOfCluster(w, live, o)
    ensures Going(w, o) !! RunSet(a)
  {
    hide WellLinked;
    ClusterFacts(w, live, a);
    forall y | y in Going(w, o)
      ensures y !in RunSet(a)
    {
      ClusterRun(w, live, a, y);
      if IsData(w.disk, o) { ClusterRun(w, live, o, y); }
    }
  }

  lemma PieceAccount(w: Sys, live: set<nat>, used: set<nat>, rest: set<nat>, mark: nat, base: nat, a: nat, b: nat,
                     k: nat)
    requires WellLinked(w, live) && Evictable(w, live, b + k, mark, mark + 1) && Going(w, b + k) !! RunSet(a)
             && k < CLUSTER_LEN
    requires used == rest + (live - Range(a, k)) + Range(b, k) && rest !! live && AllBelow(rest + live, mark)
    requires Range(a, k + 1) <= RunSet(a) && a + k in live && b < a && RunSet(a) <= live
    ensures var e := EvictMap(w, live, b + k, mark, mark + 1);
            && (if IsData(w.disk, b + k)
                then used + {mark} + Range(mark + 1, CLUSTER_LEN) - Range(b + k + 1, CLUSTER_LEN - 1) - {mark}
                else used + {mark}) - {a + k} == rest + (e.Values - Range(a, k + 1)) + Range(b, k + 1)
            && rest !! e.Values
            && AllBelow(rest + e.Values, mark + 1 + if IsData(w.disk, b + k) then CLUSTER_LEN else 0)
  {
    hide WellLinked, Evictable, EvictMap, RunSet, Range, Going, Coming;
    var o, all := b + k, rest + live;
    var data := IsData(w.disk, o);
    var e := EvictMap(w, live, o, mark, mark + 1);
    EvictAccount(w, live, all, mark, mark, o, base);
    RangeStep(a, k);
    RangeStep(b, k);
    RangeBounds(b, k);
    RangeBounds(mark + 1, CLUSTER_LEN);
    RangeBounds(o + 1, CLUSTER_LEN - 1);
    var more := if data then {mark} + Range(mark + 1, CLUSTER_LEN) else {mark};
    var less := if data then Range(o + 1, CLUSTER_LEN - 1) + {mark} else {};
    assert all + more - less == (all - live) + e.Values + {o};
    assert all - live == rest;
    assert o < mark;
    Exchange(used, all, Range(a, k), Range(b, k), more, less, a + k);
    EvictValues(w, live, o, mark, mark + 1);
    RunSetAbove(mark + 1);
    ComingPast(w, o, mark);
    assert Range(a, k + 1) !! rest && o !in Range(a, k + 1);
  }

  lemma ComingPast(w: Sys, b: nat, mark: nat)
    ensures Floor(Coming(w, b, mark, mark + 1), mark)
  {
    RunSetAbove(mark + 1);
  }

  lemma RangeBounds(a: nat, n: nat)
    ensures forall y | y in Range(a, n) :: a <= y < a + n
  {
    assert forall y | y in Range(a, n) :: Within(y, a, n);
  }

  /** Set algebra: giving and taking elsewhere commutes with the move. */
  lemma Exchange(used: set<nat>, all: set<nat>, left: set<nat>, come: set<nat>, more: set<nat>, less: set<nat>, x: nat)
    requires used == (all - left) + come && more !! left + {x} && less !! come && x !in come
    ensures used + more - less - {x} == (all + more - less - left - {x}) + come
  {
  }

  // ----------------------------------------------------------- a whole cluster

  /** The cluster at a went to b; otherwise nothing below b moved and what moved went past
      the mark. */
  ghost predicate ClusterMap(r: map<nat, nat>, live: set<nat>, a: nat, b: nat, mark: nat) {
    && r.Keys == live
    && forall x | x in r :: if InRun(x, a) then r[x] == b + (x - a) else r[x] == x || (b <= x && mark <= r[x])
  }

  /** All blocks copied and the table's entry rewritten: the cluster has moved. */
  lemma ClusterDone(u: Sys, w: Sys, live: set<nat>, a: nat, b: nat, info: FileInfo)
    requires WellLinked(w, live) && Heading(w, live, a, b, info) && Cleared(live, a, b, CLUSTER_LEN)
    requires HalfMoved(u, w, live, a, b, CLUSTER_LEN, info)
    ensures var tb := w.iBno[info.ino];
            && IsTable(u.disk, tb) && info.cluster < |u.disk[tb].clusters|
            && (var cs := u.disk[tb].clusters;
                var u' := Put(u, tb, u.disk[tb].(clusters := cs[info.cluster := Cluster(b, cs[info.cluster].len)]));
                Moved(MoveRun(live, a, b), w, live, u'))
            && MoveRun(live, a, b).Values == live - RunSet(a) + RunSet(b)
  {
    hide WellLinked, Moved, FirstOfCluster, HalfMoved, Mirrors, RunSet, DataPatch, Heading, MoveRun;
    HeadingAt(w, live, a, b, info);
    var tb := w.iBno[info.ino];
    HeadingInfo(w, live, a, b, info);
    LastOfCluster(w, live, a, b, info);
    ClusterLive(w, live, a);
    ClusterFacts(w, live, a);
    VacantPlace(live, a, b);
    DataMoved(w, live, a, b);
    RunValues(live, a, b);
    HalfAt(u, w, live, a, b, info, tb);
    var cs := u.disk[tb].clusters;
    var u' := Put(u, tb, u.disk[tb].(clusters := cs[info.cluster := Cluster(b, cs[info.cluster].len)]));
    var d := DataPatch(w, a, b);
    forall y | y in live - RunSet(a) + RunSet(b)
      ensures MirrorsAt(u', d, y)
    {
      ClusterDoneAt(u, w, live, a, b, info, y);
    }
    DataInfoAt(w, a, b, a);
    HalfMirrors(u, w, live, a, b, CLUSTER_LEN, info);
    MirrorInodes(u, w, live - Range(a, CLUSTER_LEN));
    MirrorsAll(u', d, live - RunSet(a) + RunSet(b));
    MovedMirrors(MoveRun(live, a, b), w, live, d, u');
  }

  lemma HeadingInfo(w: Sys, live: set<nat>, a: nat, b: nat, info: FileInfo)
    requires Heading(w, live, a, b, info)
    ensures a in w.info && w.info[a] == info && IsData(w.disk, a) && a in live
  {
  }

  lemma VacantPlace(live: set<nat>, a: nat, b: nat)
    requires Cleared(live, a, b, CLUSTER_LEN)
    ensures Vacant(live, a, b)
  {
  }

  /** The table is where it was. */
  lemma HalfAt(u: Sys, w: Sys, live: set<nat>, a: nat, b: nat, info: FileInfo, y: nat)
    requires WellLinked(w, live) && Heading(w, live, a, b, info) && HalfMoved(u, w, live, a, b, CLUSTER_LEN, info)
    requires y in live && (y !in RunSet(a) || IsTable(w.disk, y))
    ensures MirrorsAt(u, w, y) && y !in RunSet(a)
  {
    hide WellLinked, FirstOfCluster;
    RangeIsRun(a);
    ClusterRun(w, live, a, y);
    RunSetIs(y, a);
  }

  lemma ClusterDoneAt(u: Sys, w: Sys, live: set<nat>, a: nat, b: nat, info: FileInfo, y: nat)
    requires WellLinked(w, live) && Heading(w, live, a, b, info) && HalfMoved(u, w, live, a, b, CLUSTER_LEN, info)
    requires y in live - RunSet(a) + RunSet(b) && Owned(w, a) && w.info[a] == info
    requires var tb := w.iBno[info.ino]; tb in live && IsTable(w.disk, tb) && tb < b && MirrorsAt(u, w, tb)
    ensures var tb := w.iBno[info.ino];
            && IsTable(u.disk, tb) && info.cluster < |u.disk[tb].clusters|
            && (var cs := u.disk[tb].clusters;
                MirrorsAt(Put(u, tb, u.disk[tb].(clusters := cs[info.cluster := Cluster(b, cs[info.cluster].len)])),
                          DataPatch(w, a, b), y))
  {
    hide WellLinked, FirstOfCluster, RunSet, DataPatch, Mirrors, Heading;
    RunSetIs(y, a);
    RunSetIs(y, b);
    DataPatchAt(w, a, b, y);
    DataInfoAt(w, a, b, y);
    if InRun(y, b) {
      assert PieceAt(u, w, a, b, y - b, info);
    } else {
      HalfAt(u, w, live, a, b, info, y);
    }
  }

  lemma HeadingStart(s: Sys, live: set<nat>, ino: nat, c: nat, b: nat)
    requires WellLinked(s, live) && ino in s.iBno && IsTable(s.disk, s.iBno[ino])
             && c < NrClusters(s.disk[s.iBno[ino]].clusters)
    requires 0 < b <= s.disk[s.iBno[ino]].clusters[c].start && s.iBno[ino] < b
    ensures Heading(s, live, s.disk[s.iBno[ino]].clusters[c].start, b, FileInfo(ino, c))
  {
    hide NrClusters;
    InodeLive(s, live, ino);
    var tb := s.iBno[ino];
    assert BlockOk(s, live, tb);
    TableRun(s, live, tb, c, 0);
    assert BlockOk(s, live, s.disk[tb].clusters[c].start);
  }

  /** No other cluster begins inside the new place of this one. */
  lemma StraddleNext(w: Sys, live: set<nat>, a: nat, b: nat, info: FileInfo, u: Sys)
    requires WellLinked(w, live) && Heading(w, live, a, b, info) && Cleared(live, a, b, CLUSTER_LEN)
             && NoStraddle(w, live, b)
    requires Moved(MoveRun(live, a, b), w, live, u)
    ensures NoStraddle(u, MoveRun(live, a, b).Values, b + CLUSTER_LEN)
  {
    hide WellLinked, Moved, FirstOfCluster, StartOf, Renamed, NoStraddle, Cleared;
    var r := MoveRun(live, a, b);
    forall y' | y' in r.Values && IsData(u.disk, y') && b + CLUSTER_LEN <= y'
      ensures b + CLUSTER_LEN <= StartOf(u, y')
    {
      var y: nat :| y in r && r[y] == y';
      MovedAt(r, w, live, u, y);
      RenamedData(r, w.disk[y], u.disk[y']);
      MovedStart(r, w, live, u, y);
      StartPast(w, live, a, b, info, y);
    }
    StraddleFrom(u, r.Values, b + CLUSTER_LEN);
  }

  lemma StraddleFrom(u: Sys, live: set<nat>, b: nat)
    requires forall y | y in live && IsData(u.disk, y) && b <= y :: b <= StartOf(u, y)
    ensures NoStraddle(u, live, b)
  {
  }

  lemma StartPast(w: Sys, live: set<nat>, a: nat, b: nat, info: FileInfo, y: nat)
    requires WellLinked(w, live) && Heading(w, live, a, b, info) && Cleared(live, a, b, CLUSTER_LEN)
             && NoStraddle(w, live, b)
    requires y in live && IsData(w.disk, y) && b + CLUSTER_LEN <= y && !InRun(y, a)
    ensures b + CLUSTER_LEN <= StartOf(w, y) && !InRun(StartOf(w, y), a)
  {
    hide WellLinked, FirstOfCluster, StartOf;
    StartFacts(w, live, y);
    if InRun(StartOf(w, y), a) {
      SameCluster(w, live, a, y);
    }
  }

  /** A cluster moved once stays where it is while others are evicted. */
  lemma ClusterFixed(e: map<nat, nat>, s: Sys, live: set<nat>, w: Sys, a: nat, b: nat, info: FileInfo)
    requires WellLinked(s, live) && Moved(e, s, live, w) && Heading(s, live, a, b, info)
             && Heading(w, e.Values, a, b, info)
    requires WellLinked(w, e.Values) && w.iBno[info.ino] == s.iBno[info.ino]
    requires e[s.iBno[info.ino]] == s.iBno[info.ino]
    ensures forall x | InRun(x, a) :: x in e && e[x] == x
  {
    hide WellLinked, Moved, FirstOfCluster, NrClusters, Renamed, Heading;
    HeadingAt(s, live, a, b, info);
    var tb := s.iBno[info.ino];
    LastOfCluster(s, live, a, b, info);
    LastOfCluster(w, e.Values, a, b, info);
    HeadingInfo(s, live, a, b, info);
    ClusterUsed(s, live, a);
    MovedAt(e, s, live, w, tb);
    forall x: nat | InRun(x, a)
      ensures x in e && e[x] == x
    {
      RenamedRun(e, s.disk[tb], w.disk[tb], info.cluster, x - a);
    }
  }

  lemma ClusterMapIs(e: map<nat, nat>, live: set<nat>, a: nat, b: nat, mark: nat)
    requires UpMap(e, live, b, mark) && Injective(e) && (forall x | InRun(x, a) :: x in e && e[x] == x) && b <= a
    ensures var r := Compose(e, MoveRun(e.Values, a, b));
            ClusterMap(r, live, a, b, mark) && r.Values == MoveRun(e.Values, a, b).Values
  {
    var q := MoveRun(e.Values, a, b);
    var r := Compose(e, q);
    ComposeKeys(e, q);
    forall x | x in r
      ensures if InRun(x, a) then r[x] == b + (x - a) else r[x] == x || (b <= x && mark <= r[x])
    {
      var z := e[x];
      assert InRun(z, a) ==> z in e && e[z] == z;
    }
  }

  /** Inodes below the wanted place keep their block numbers. */
  lemma UpInode(e: map<nat, nat>, s: Sys, live: set<nat>, w: Sys, ino: nat, b: nat, mark: nat)
    requires Moved(e, s, live, w) && UpMap(e, live, b, mark) && ino in s.iBno && s.iBno[ino] < b
    ensures ino in w.iBno && w.iBno[ino] == s.iBno[ino] && s.iBno[ino] in e && e[s.iBno[ino]] == s.iBno[ino]
  {
    hide Moved;
    MovedInode(e, s, live, w, ino);
  }

  lemma UpTwice(e: map<nat, nat>, f: map<nat, nat>, live: set<nat>, b: nat, mark: nat, mark': nat)
    requires UpMap(e, live, b, mark) && UpMap(f, e.Values, b, mark') && mark <= mark'
    ensures UpMap(Compose(e, f), live, b, mark) && Compose(e, f).Values == f.Values
  {
    ComposeKeys(e, f);
  }

  /** The start of it: nothing has been copied. */
  lemma NothingMoved(s: Sys, live: set<nat>, used: set<nat>, mark: nat, size: nat, base: nat, a: nat, b: nat,
                     info: FileInfo)
    requires WellLinked(s, live) && Placed(used, mark, size, live, base)
    ensures used == (used - live) + (live - Range(a, 0)) + Range(b, 0) && AllBelow(used - live, base)
    ensures AllBelow((used - live) + live, mark) && Cleared(live, a, b, 0) && HalfMoved(s, s, live, a, b, 0, info)
  {
    hide WellLinked;
    RangeStep(a, 0);
    RangeStep(b, 0);
    SelfMirrors(s, live);
  }

  lemma UnderEnd(used: set<nat>, rest: set<nat>, live: set<nat>, base: nat, mark: nat, size: nat, a: nat, b: nat)
    requires used == rest + (live - Range(a, CLUSTER_LEN)) + Range(b, CLUSTER_LEN) && AllBelow(rest, base)
    requires AllBelow(rest + live, mark) && b + CLUSTER_LEN <= mark <= size && base <= b
    ensures Placed(used, mark, size, live - RunSet(a) + RunSet(b), base)
  {
    RangeIsRun(a);
    RangeIsRun(b);
    RangeBounds(b, CLUSTER_LEN);
  }

  /** What the table says while the cluster is in two pieces. */
  lemma TableSeen(u: Sys, w: Sys, live: set<nat>, a: nat, b: nat, k: nat, info: FileInfo)
    requires WellLinked(w, live) && Heading(w, live, a, b, info) && HalfMoved(u, w, live, a, b, k, info)
             && k <= CLUSTER_LEN
    ensures u.iBno == w.iBno && info.ino in u.iBno && IsTable(u.disk, u.iBno[info.ino])
    ensures info.cluster < |u.disk[u.iBno[info.ino]].clusters|
    ensures u.disk[u.iBno[info.ino]].clusters[info.cluster] == Cluster(a, CLUSTER_LEN)
    ensures a + (CLUSTER_LEN - 1) in live
  {
    hide WellLinked, FirstOfCluster;
    LastOfCluster(w, live, a, b, info);
    ClusterRun(w, live, a, w.iBno[info.ino]);
    assert MirrorsAt(u, w, w.iBno[info.ino]);
  }

  /** What holds while the cluster is in two pieces: its entry in the table, and its places. */
  lemma UnderSeen(v: Volume, w: Sys, live: set<nat>, rest: set<nat>, base: nat, a: nat, b: nat, k: nat, info: FileInfo)
    requires Under(v, w, live, rest, base, a, b, k, info)
    ensures v.iBno == w.iBno && info.ino in v.iBno && v.iBno[info.ino] < b && IsTable(v.blocks, v.iBno[info.ino])
    ensures info.cluster < |v.blocks[v.iBno[info.ino]].clusters|
    ensures v.blocks[v.iBno[info.ino]].clusters[info.cluster] == Cluster(a, CLUSTER_LEN)
    ensures b + CLUSTER_LEN <= v.alloc.unused <= v.alloc.bits.Length && WellLinked(w, live)
  {
    hide WellLinked, Heading, HalfMoved, HonestAll, NoStraddle, SetBits;
    HeadingAt(w, live, a, b, info);
    TableSeen(Snap(v), w, live, a, b, k, info);
    BelowAt(rest + live, v.alloc.unused, a + (CLUSTER_LEN - 1));
  }

  lemma UnderStart(v: Volume, live: set<nat>, base: nat, ino: nat, c: nat, b: nat)
    requires Steady(v, live, base) && ino in v.iBno && IsTable(v.blocks, v.iBno[ino])
             && c < NrClusters(v.blocks[v.iBno[ino]].clusters)
    requires 0 < base <= b <= v.blocks[v.iBno[ino]].clusters[c].start && v.iBno[ino] < b && NoStraddle(Snap(v), live, b)
    ensures Under(v, Snap(v), live, v.alloc.Used() - live, base, v.blocks[v.iBno[ino]].clusters[c].start, b, 0,
                  FileInfo(ino, c))
  {
    hide WellLinked, HonestAll, NoStraddle, Heading, SetBits, NrClusters;
    var s := Snap(v);
    HeadingStart(s, live, ino, c, b);
    NothingMoved(s, live, v.alloc.Used(), v.alloc.unused, v.alloc.bits.Length, base,
                 v.blocks[v.iBno[ino]].clusters[c].start, b, FileInfo(ino, c));
  }

  /** The new start goes into the table. */
  method CloseCluster(v: Volume, ino: nat, c: nat, b: nat, ghost a: nat, ghost w: Sys, ghost live: set<nat>,
                      ghost rest: set<nat>, ghost base: nat)
    requires Under(v, w, live, rest, base, a, b, CLUSTER_LEN, FileInfo(ino, c))
    modifies v`blocks
    ensures var q := MoveRun(live, a, b);
            && Moved(q, w, live, Snap(v))
            && Steady(v, q.Values, base)
            && NoStraddle(Snap(v), q.Values, b + CLUSTER_LEN)
  {
    hide WellLinked, Moved, HonestAll, NoStraddle, Heading, HalfMoved, SetBits, AllBelow, Range, RunSet, Cleared,
         NrClusters, MoveRun;
    ghost var info, q := FileInfo(ino, c), MoveRun(live, a, b);
    UnderSeen(v, w, live, rest, base, a, b, CLUSTER_LEN, info);
    ClusterDone(Snap(v), w, live, a, b, info);
    var table := v.iBno[ino];
    var cs := v.blocks[table].clusters;
    v.blocks := v.blocks[table := v.blocks[table].(clusters := cs[c := Cluster(b, cs[c].len)])];
    MovedLinked(q, w, live, Snap(v));
    HonestMoved(q, w, live, Snap(v));
    StraddleNext(w, live, a, b, info, Snap(v));
    UnderEnd(v.alloc.Used(), rest, live, base, v.alloc.unused, v.alloc.bits.Length, a, b);
  }

  /** What all evictions and the move of the cluster come to. */
  lemma ClusterWhole(e: map<nat, nat>, s: Sys, live: set<nat>, w: Sys, u: Sys, a: nat, b: nat, info: FileInfo,
                     mark: nat)
    requires WellLinked(s, live) && Moved(e, s, live, w) && Heading(s, live, a, b, info)
             && Heading(w, e.Values, a, b, info)
    requires WellLinked(w, e.Values) && UpMap(e, live, b, mark) && Moved(MoveRun(e.Values, a, b), w, e.Values, u)
    ensures var r := Compose(e, MoveRun(e.Values, a, b));
            Moved(r, s, live, u) && ClusterMap(r, live, a, b, mark) && r.Values == MoveRun(e.Values, a, b).Values
  {
    hide WellLinked, Moved, Heading, MoveRun, Compose, ClusterMap, UpMap;
    HeadingAt(s, live, a, b, info);
    UpInode(e, s, live, w, info.ino, b, mark);
    MovedInjective(e, s, live, w);
    ClusterFixed(e, s, live, w, a, b, info);
    ClusterMapIs(e, live, a, b, mark);
    MovedTwice(e, MoveRun(e.Values, a, b), s, live, w, u);
  }

  /** The loop over the blocks of cluster c and the table entry: the cluster goes to b. */
  method MoveCluster(v: Volume, ino: nat, c: nat, b: nat, ghost live: set<nat>, ghost base: nat)
    returns (o: nat, ghost r: map<nat, nat>)
    requires Steady(v, live, base) && ino in v.iBno && IsTable(v.blocks, v.iBno[ino])
             && c < NrClusters(v.blocks[v.iBno[ino]].clusters)
    requires 0 < base <= b <= v.blocks[v.iBno[ino]].clusters[c].start && v.iBno[ino] < b
    requires NoStraddle(Snap(v), live, b)
    requires v.alloc.unused + (1 + CLUSTER_LEN) * CLUSTER_LEN <= v.alloc.bits.Length
    modifies v`blocks, v`iBno, v`info, v.alloc, v.alloc.bits
    ensures o == b + CLUSTER_LEN <= old(v.alloc.unused)
    ensures Moved(r, old(Snap(v)), live, Snap(v)) && Steady(v, r.Values, base) && NoStraddle(Snap(v), r.Values, o)
    ensures ClusterMap(r, live, old(v.blocks[v.iBno[ino]].clusters[c].start), b, old(v.alloc.unused))
    ensures old(v.alloc.unused) <= v.alloc.unused <= old(v.alloc.unused) + (1 + CLUSTER_LEN) * CLUSTER_LEN
  {
    hide WellLinked, Moved, SetBits, UpMap, NrClusters, Compose, Under, Heading, NoStraddle, MoveRun, ClusterMap,
         HonestAll, Placed;
    ghost var s, mark := Snap(v), v.alloc.unused;
    var table := v.iBno[ino];
    ghost var a, info, rest := v.blocks[table].clusters[c].start, FileInfo(ino, c), v.alloc.Used() - live;
    UnderStart(v, live, base, ino, c, b);
    IdleMap(live);
    MovedNowhere(s, live, Idle(live));
    ghost var e, w := Idle(live), s;
    IdleUp(live, b, mark);
    UnderSeen(v, w, live, rest, base, a, b, 0, info);
    o := b;
    var k := 0;
    while k < v.blocks[table].clusters[c].len
      invariant k <= CLUSTER_LEN && o == b + k && Under(v, w, e.Values, rest, base, a, b, k, info)
      invariant ino in v.iBno && v.iBno[ino] == table && IsTable(v.blocks, table) && c < |v.blocks[table].clusters|
      invariant v.blocks[table].clusters[c] == Cluster(a, CLUSTER_LEN)
      invariant Moved(e, s, live, w) && UpMap(e, live, b, mark)
      invariant mark <= v.alloc.unused <= mark + (1 + CLUSTER_LEN) * k
      decreases CLUSTER_LEN - k
    {
      ghost var m1 := v.alloc.unused;
      UnderSeen(v, w, e.Values, rest, base, a, b, k, info);
      var start := v.blocks[table].clusters[c].start;
      if o == start + k {
        PieceAlready(v, w, e.Values, rest, base, a, k, info);
      } else if !v.alloc.bits[o] {
        PieceToFree(v, start, b, k, FileInfo(ino, c), w, e.Values, rest, base);
      } else {
        ghost var f, w';
        f, w' := PieceToTaken(v, start, b, k, FileInfo(ino, c), w, e.Values, rest, base);
        MovedTwice(e, f, s, live, w, w');
        UpTwice(e, f, live, b, mark, m1);
        UpInode(f, w, e.Values, w', ino, b, m1);
        e, w := Compose(e, f), w';
      }
      UnderSeen(v, w, e.Values, rest, base, a, b, k + 1, info);
      o := o + 1;
      k := k + 1;
    }
    UnderHeading(v, w, e.Values, rest, base, a, b, k, info);
    HeadingStart(s, live, ino, c, b);
    CloseCluster(v, ino, c, b, a, w, e.Values, rest, base);
    ClusterWhole(e, s, live, w, Snap(v), a, b, info, mark);
    r := Compose(e, MoveRun(e.Values, a, b));
  }

  lemma UnderHeading(v: Volume, w: Sys, live: set<nat>, rest: set<nat>, base: nat, a: nat, b: nat, k: nat,
                     info: FileInfo)
    requires Under(v, w, live, rest, base, a, b, k, info)
    ensures Heading(w, live, a, b, info) && WellLinked(w, live)
  {
  }

  lemma IdleUp(live: set<nat>, b: nat, mark: nat)
    ensures UpMap(Idle(live), live, b, mark)
  {
  }

  /** Nothing to do for this block. */
  lemma PieceAlready(v: Volume, w: Sys, live: set<nat>, rest: set<nat>, base: nat, a: nat, k: nat, info: FileInfo)
    requires Under(v, w, live, rest, base, a, a, k, info) && k < CLUSTER_LEN
    ensures Under(v, w, live, rest, base, a, a, k + 1, info)
  {
    hide WellLinked, HonestAll, NoStraddle, Heading, HalfMoved, SetBits, AllBelow;
    PieceStays(Snap(v), w, live, a, k, info);
    NextPiece(Snap(v), w, live, a, a, k, info);
  }
}
