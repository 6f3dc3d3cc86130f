/** Logical to physical blocks of a file (file.c) and the reverse map (io.h). */
module FileMap {
  import opened Entries
  import opened Blocks
  import opened Bitmap
  import opened DiskTree
  import opened System
  import opened Relocate
  import opened Defrag

  /** BASICBTFS_ATABLE_MAX_CLUSTERS: (4096 - 12) / 8 */
  const MAX_CLUSTERS := 510
  /** BASICBTFS_MAX_BLOCKS_PER_DIR */
  const MAX_FILE_BLOCKS := MAX_CLUSTERS * CLUSTER_LEN

  // --------------------------------------------------------------- search

  /** Blocks in the first i clusters. */
  function Prefix(cs: seq<Cluster>, i: nat): nat
    requires i <= |cs|
  {
    if i == 0 then 0 else Prefix(cs, i - 1) + cs[i - 1].len
  }

  /** Cluster i is where the loop of basicbtfs_search_cluster stops. */
  predicate StopsAt(cs: seq<Cluster>, iblock: nat, i: nat)
    requires i < |cs|
  {
    cs[i].start == 0 || Prefix(cs, i) <= iblock < Prefix(cs, i + 1)
  }

  /** basicbtfs_search_cluster, for lengths whose sum is a uint32. */
  method SearchCluster(cs: seq<Cluster>, iblock: nat) returns (r: nat)
    requires |cs| < NO_BLOCK
    ensures r != NO_BLOCK ==> r < |cs| && StopsAt(cs, iblock, r)
    ensures forall j | 0 <= j < |cs| && (r == NO_BLOCK || j < r) :: !StopsAt(cs, iblock, j)
  {
    var i, before, total := 0, 0, 0;
    while i < |cs|
      invariant i <= |cs| && before == total == Prefix(cs, i)
      invariant forall j | 0 <= j < i :: !StopsAt(cs, iblock, j)
    {
      total := total + cs[i].len;
      if cs[i].start == 0 || (iblock >= before && iblock < total) {
        return i;
      }
      before := total;
      i := i + 1;
    }
    r := NO_BLOCK;
  }

  /** The table of a file that got its clusters from basicbtfs_file_get_block. */
  ghost predicate Tidy(cs: seq<Cluster>) {
    && |cs| == MAX_CLUSTERS
    && forall i | 0 <= i < |cs| :: if i < NrClusters(cs) then cs[i].len == CLUSTER_LEN else cs[i] == Cluster(0, 0)
  }

  lemma {:induction false} TidyPrefix(cs: seq<Cluster>, i: nat)
    requires Tidy(cs) && i <= NrClusters(cs)
    ensures Prefix(cs, i) == CLUSTER_LEN * i
  {
    if i > 0 {
      TidyPrefix(cs, i - 1);
    }
  }

  /** Below the size limit the search never fails: it gives the cluster of the block, or the
      first unused one if the file does not reach that far. */
  lemma SearchIs(cs: seq<Cluster>, iblock: nat, r: nat)
    requires Tidy(cs) && iblock < MAX_FILE_BLOCKS
    requires r != NO_BLOCK ==> r < |cs| && StopsAt(cs, iblock, r)
    requires forall j | 0 <= j < |cs| && (r == NO_BLOCK || j < r) :: !StopsAt(cs, iblock, j)
    ensures r == if iblock / CLUSTER_LEN < NrClusters(cs) then iblock / CLUSTER_LEN else NrClusters(cs)
  {
    var n, c := NrClusters(cs), iblock / CLUSTER_LEN;
    var want := if c < n then c else n;
    if c < n {
      TidyPrefix(cs, c);
      TidyPrefix(cs, c + 1);
    }
    assert want < |cs| && StopsAt(cs, iblock, want);
    forall j | 0 <= j < want
      ensures !StopsAt(cs, iblock, j)
    {
      TidyPrefix(cs, j);
      TidyPrefix(cs, j + 1);
    }
  }

  // -------------------------------------------------------------- mapping

  /** Where block iblock of the file lies. */
  function Phys(cs: seq<Cluster>, iblock: nat): Option<nat> {
    if iblock / CLUSTER_LEN < NrClusters(cs) then Some(cs[iblock / CLUSTER_LEN].start + iblock % CLUSTER_LEN) else None
  }

  function TableOf(s: Sys, ino: nat): seq<Cluster> {
    if ino in s.iBno && IsTable(s.disk, s.iBno[ino]) then s.disk[s.iBno[ino]].clusters else []
  }

  /** No physical block is used twice, over all files and all their blocks. */
  lemma PhysInjective(s: Sys, live: set<nat>, ino: nat, i: nat, ino': nat, j: nat)
    requires WellLinked(s, live) && Phys(TableOf(s, ino), i).Some? && Phys(TableOf(s, ino'), j).Some?
    requires Phys(TableOf(s, ino), i) == Phys(TableOf(s, ino'), j)
    ensures ino == ino' && i == j
  {
    hide WellLinked, NrClusters;
    PhysKnown(s, live, ino, i);
    PhysKnown(s, live, ino', j);
  }

  /** The reverse map names the file and the cluster of every mapped block. */
  lemma PhysKnown(s: Sys, live: set<nat>, ino: nat, i: nat)
    requires WellLinked(s, live) && Phys(TableOf(s, ino), i).Some?
    ensures var b := Phys(TableOf(s, ino), i).value;
            b in live && IsData(s.disk, b) && b in s.info && s.info[b] == FileInfo(ino, i / CLUSTER_LEN)
  {
    hide NrClusters;
    var tb := s.iBno[ino];
    NoClusters();
    assert Owns(s.disk, ino, tb) && BlockOk(s, live, tb);
    assert RunOk(s, live, s.disk[tb].ino, s.disk[tb].clusters, i / CLUSTER_LEN, i % CLUSTER_LEN);
  }

  lemma NoClusters()
    ensures NrClusters([]) == 0
  {
  }

  datatype MapResult = Mapped(bno: nat) | Hole | TooBig | OutOfSpace

  /** The table with one cluster more. */
  function Extended(cs: seq<Cluster>, bno: nat): seq<Cluster> {
    if NrClusters(cs) < |cs| then cs[NrClusters(cs) := Cluster(bno, CLUSTER_LEN)] else cs
  }

  lemma {:induction false} ExtendedCount(cs: seq<Cluster>, bno: nat)
    requires bno != 0 && NrClusters(cs) < |cs| && forall i | NrClusters(cs) < i < |cs| :: cs[i].start == 0
    ensures NrClusters(Extended(cs, bno)) == NrClusters(cs) + 1
  {
    if cs[0].start == 0 {
      assert Extended(cs, bno)[1..] == cs[1..];
    } else {
      ExtendedCount(cs[1..], bno);
      assert Extended(cs, bno)[1..] == Extended(cs[1..], bno);
    }
  }

  lemma ExtendedTidy(cs: seq<Cluster>, bno: nat)
    requires bno != 0 && NrClusters(cs) < MAX_CLUSTERS && Tidy(cs)
    ensures Tidy(Extended(cs, bno)) && |Extended(cs, bno)| == |cs|
            && NrClusters(Extended(cs, bno)) == NrClusters(cs) + 1
    ensures forall i | 0 <= i <= NrClusters(cs) ::
              Extended(cs, bno)[i] == if i < NrClusters(cs) then cs[i] else Cluster(bno, CLUSTER_LEN)
  {
    ExtendedCount(cs, bno);
  }

  /** Blocks mapped before stay where they are. */
  lemma PhysStable(cs: seq<Cluster>, bno: nat, i: nat)
    requires bno != 0 && NrClusters(cs) < MAX_CLUSTERS && Tidy(cs)
    ensures Phys(cs, i).Some? ==> Phys(Extended(cs, bno), i) == Phys(cs, i)
    ensures Phys(Extended(cs, bno), i).Some? <==> i < CLUSTER_LEN * (NrClusters(cs) + 1)
  {
    hide NrClusters, Tidy, Extended;
    ExtendedTidy(cs, bno);
  }

  /** The block number given out for a block beyond the end is the start of the new cluster:
      the right one exactly when the file grows by one cluster, from its first block on. */
  lemma CreateExact(cs: seq<Cluster>, bno: nat, iblock: nat)
    requires bno != 0 && NrClusters(cs) < MAX_CLUSTERS && Tidy(cs)
    requires Phys(cs, iblock).None?
    ensures Phys(Extended(cs, bno), iblock) == Some(bno) <==> iblock == CLUSTER_LEN * NrClusters(cs)
  {
    hide NrClusters, Tidy, Extended;
    ExtendedTidy(cs, bno);
  }

  /** What creating a cluster at bno makes of the block graph. */
  function Created(s: Sys, ino: nat, bno: nat): Sys
    requires ino in s.iBno && IsTable(s.disk, s.iBno[ino])
  {
    var tb := s.disk[s.iBno[ino]];
    Sys(map b | b in s.disk.Keys + RunSet(bno) :: if b in RunSet(bno) then ZERO_DATA
          else if b == s.iBno[ino] then tb.(clusters := Extended(tb.clusters, bno)) else s.disk[b],
        s.iBno,
        map b | b in s.info.Keys + RunSet(bno) ::
          if b in RunSet(bno) then FileInfo(ino, NrClusters(tb.clusters)) else s.info[b])
  }

  const ZERO_DATA := DataBlock(Zeroes(4096, 0))

  /** basicbtfs_file_get_block */
  method FileGetBlock(v: Volume, ino: nat, iblock: nat, create: bool, ghost live: set<nat>) returns (r: MapResult)
    requires v.Ready() && WellLinked(Snap(v), live) && live <= v.alloc.Used()
    requires ino in v.iBno && IsTable(v.blocks, v.iBno[ino]) && Tidy(v.blocks[v.iBno[ino]].clusters)
    modifies v`blocks, v`info, v.alloc, v.alloc.bits
    ensures r.TooBig? <==> iblock >= MAX_FILE_BLOCKS
    ensures Phys(old(TableOf(Snap(v), ino)), iblock).Some? ==>
              r.Mapped? && Some(r.bno) == Phys(old(TableOf(Snap(v), ino)), iblock) && Snap(v) == old(Snap(v))
    ensures Phys(old(TableOf(Snap(v), ino)), iblock).None? && iblock < MAX_FILE_BLOCKS ==>
              && (r.Hole? <==> !create)
              && (r.OutOfSpace? <==> create && NoRun(old(v.alloc.bits[..])))
              && (r.Mapped? <==> create && !NoRun(old(v.alloc.bits[..])))
    ensures r.Mapped? && Phys(old(TableOf(Snap(v), ino)), iblock).None? ==>
              && r.bno != 0 && RunSet(r.bno) !! live && Snap(v) == Created(old(Snap(v)), ino, r.bno)
              && v.alloc.Used() == old(v.alloc.Used()) + RunSet(r.bno)
              && WellLinked(Snap(v), live + RunSet(r.bno)) && Tidy(v.blocks[v.iBno[ino]].clusters)
    ensures !r.Mapped? ==> Snap(v) == old(Snap(v))
    ensures v.Ready()
    ensures var cs := old(v.blocks[v.iBno[ino]].clusters); var c, k := iblock / CLUSTER_LEN, iblock % CLUSTER_LEN;
            && (r.Mapped? && c < NrClusters(cs) ==>
                  r.bno == cs[c].start + k && Serves(Snap(v), ino, c, k, r.bno))
            && (r.Mapped? && NrClusters(cs) <= c ==>
                  forall j | 0 <= j < CLUSTER_LEN :: ServesZeroes(Snap(v), ino, NrClusters(cs), j, r.bno))
  {
    hide WellLinked, NrClusters, SetBits, FreeBits, Range, ClearRun, FirstFit, RunSet;
    if iblock >= MAX_FILE_BLOCKS {
      return TooBig;
    }
    ghost var s := Snap(v);
    var tb := v.iBno[ino];
    var cs := v.blocks[tb].clusters;
    var index := SearchCluster(cs, iblock);
    SearchIs(cs, iblock, index);
    UsedCount(cs, index);
    TableFits(cs, iblock);
    if cs[index].start == 0 {
      if !create {
        return Hole;
      }
      var bno := v.alloc.GetFreeBlocks(CLUSTER_LEN);
      if bno == NO_BLOCK {
        return OutOfSpace;
      }
      NotFull(old(v.alloc.bits[..]), bno);
      RangeIsRun(bno);
      FreshRun(live, old(v.alloc.Used()), bno, s, ino);
      v.blocks := v.blocks[tb := v.blocks[tb].(clusters := cs[index := Cluster(bno, CLUSTER_LEN)])];
      NewCluster(v, ino, index, bno);
      CreatedIs(s, ino, bno, v.blocks, v.info);
      Joins(s, live, ino, bno, index);
      CreatedLinked(s, live, ino, bno);
      forall j | 0 <= j < CLUSTER_LEN
        ensures ServesZeroes(Created(s, ino, bno), ino, index, j, bno)
      {
        NewServes(s, live, ino, bno, j);
      }
      r := Mapped(bno);
    } else {
      OldServes(s, live, ino, iblock / CLUSTER_LEN, iblock % CLUSTER_LEN);
      r := Mapped(cs[index].start + iblock % cs[index].len);
    }
  }

  /** Block k of cluster c of the file is the data block b. */
  ghost predicate Serves(s: Sys, ino: nat, c: nat, k: nat, b: nat) {
    IsData(s.disk, b) && FileBlock(s, ino, c, k) == Some(s.disk[b].content)
  }

  /** It is block k of the run at a, and reads as 4096 zeroes. */
  ghost predicate ServesZeroes(s: Sys, ino: nat, c: nat, k: nat, a: nat) {
    && Serves(s, ino, c, k, a + k)
    && var x := s.disk[a + k].content; |x| == 4096 && forall i | 0 <= i < 4096 :: x[i] == 0
  }

  lemma OldServes(s: Sys, live: set<nat>, ino: nat, c: nat, k: nat)
    requires WellLinked(s, live) && ino in s.iBno && IsTable(s.disk, s.iBno[ino])
    requires c < NrClusters(s.disk[s.iBno[ino]].clusters) && k < CLUSTER_LEN
    ensures Serves(s, ino, c, k, s.disk[s.iBno[ino]].clusters[c].start + k)
  {
    hide NrClusters;
    assert BlockOk(s, live, s.iBno[ino]);
    TableRun(s, live, s.iBno[ino], c, k);
  }

  lemma NewServes(s: Sys, live: set<nat>, ino: nat, bno: nat, k: nat)
    requires WellLinked(s, live) && Creatable(s, live, ino, bno) && k < CLUSTER_LEN
    ensures ServesZeroes(Created(s, ino, bno), ino, NrClusters(s.disk[s.iBno[ino]].clusters), k, bno)
  {
    hide NrClusters, Extended, Tidy, WellLinked;
    var tb := s.iBno[ino];
    ExtendedTidy(s.disk[tb].clusters, bno);
    CreatedAt(s, live, ino, bno, tb);
    assert InRun(bno + k, bno) && bno + k in RunSet(bno);
    assert Created(s, ino, bno).disk[bno + k] == ZERO_DATA;
  }

  /** Nowhere are there as many clear bits in a row as a cluster has blocks. */
  ghost predicate NoRun(bits: seq<bool>) { forall b | 1 <= b < |bits| :: !ClearRun(bits, b, CLUSTER_LEN) }

  lemma NotFull(bits: seq<bool>, b: nat)
    requires 1 <= b && ClearRun(bits, b, CLUSTER_LEN)
    ensures !NoRun(bits)
  {
    assert b + CLUSTER_LEN <= |bits|;
  }

  lemma TableFits(cs: seq<Cluster>, iblock: nat)
    requires Tidy(cs)
    ensures NrClusters(cs) <= MAX_CLUSTERS && (Phys(cs, iblock).Some? ==> iblock < MAX_FILE_BLOCKS)
  {
  }

  lemma Joins(s: Sys, live: set<nat>, ino: nat, bno: nat, index: nat)
    requires WellLinked(s, live) && ino in s.iBno && IsTable(s.disk, s.iBno[ino])
    requires Tidy(s.disk[s.iBno[ino]].clusters) && index == NrClusters(s.disk[s.iBno[ino]].clusters) < MAX_CLUSTERS
    requires bno != 0 && RunSet(bno) !! live
    ensures Creatable(s, live, ino, bno)
  {
    hide NrClusters, Tidy, RunSet;
    assert Owns(s.disk, ino, s.iBno[ino]);
  }

  lemma UsedCount(cs: seq<Cluster>, i: nat)
    requires i <= NrClusters(cs) && i < |cs|
    ensures cs[i].start == 0 <==> i == NrClusters(cs)
  {
  }

  lemma FreshRun(live: set<nat>, used: set<nat>, bno: nat, s: Sys, ino: nat)
    requires WellLinked(s, live) && live <= used && RunSet(bno) !! used && ino in s.iBno
    ensures RunSet(bno) !! live && s.iBno[ino] !in RunSet(bno)
  {
  }

  /** The loop over the new cluster: reverse map and zeroed content. */
  method NewCluster(v: Volume, ino: nat, index: nat, bno: nat)
    modifies v`blocks, v`info
    ensures v.blocks.Keys == old(v.blocks).Keys + RunSet(bno) && v.info.Keys == old(v.info).Keys + RunSet(bno)
    ensures forall b | b in v.blocks :: v.blocks[b] == if InRun(b, bno) then ZERO_DATA else old(v.blocks)[b]
    ensures forall b | b in v.info :: v.info[b] == if InRun(b, bno) then FileInfo(ino, index) else old(v.info)[b]
  {
    ghost var d, m := v.blocks, v.info;
    var i := 0;
    while i < CLUSTER_LEN
      invariant i <= CLUSTER_LEN
      invariant forall b :: b in v.blocks <==> b in d || bno <= b < bno + i
      invariant forall b :: b in v.info <==> b in m || bno <= b < bno + i
      invariant forall b | b in v.blocks :: v.blocks[b] == if bno <= b < bno + i then ZERO_DATA else d[b]
      invariant forall b | b in v.info :: v.info[b] == if bno <= b < bno + i then FileInfo(ino, index) else m[b]
    {
      v.info := v.info[bno + i := FileInfo(ino, index)];
      v.blocks := v.blocks[bno + i := ZERO_DATA];
      i := i + 1;
    }
  }

  lemma CreatedIs(s: Sys, ino: nat, bno: nat, d: Disk, info: map<nat, FileInfo>)
    requires ino in s.iBno && IsTable(s.disk, s.iBno[ino]) && s.iBno[ino] !in RunSet(bno)
    requires NrClusters(s.disk[s.iBno[ino]].clusters) < |s.disk[s.iBno[ino]].clusters|
    requires d.Keys == s.disk.Keys + RunSet(bno) && info.Keys == s.info.Keys + RunSet(bno)
    requires var tb := s.disk[s.iBno[ino]]; var e := s.disk[s.iBno[ino] := tb.(clusters := Extended(tb.clusters, bno))];
             forall b | b in d :: d[b] == if InRun(b, bno) then ZERO_DATA else e[b]
    requires forall b | b in info ::
               info[b] == if InRun(b, bno) then FileInfo(ino, NrClusters(s.disk[s.iBno[ino]].clusters)) else s.info[b]
    ensures Sys(d, s.iBno, info) == Created(s, ino, bno)
  {
    hide NrClusters, Extended;
    var u := Created(s, ino, bno);
    forall b | b in d.Keys + info.Keys
      ensures b in RunSet(bno) <==> InRun(b, bno)
    {
      RunSetIs(b, bno);
    }
    assert d == u.disk && info == u.info;
  }

  // ------------------------------------------- the block graph afterwards

  /** There is room for a cluster at bno. */
  ghost predicate Creatable(s: Sys, live: set<nat>, ino: nat, bno: nat) {
    && ino in s.iBno && IsTable(s.disk, s.iBno[ino]) && s.disk[s.iBno[ino]].ino == ino && s.iBno[ino] in live
    && Tidy(s.disk[s.iBno[ino]].clusters) && NrClusters(s.disk[s.iBno[ino]].clusters) < MAX_CLUSTERS
    && bno != 0 && RunSet(bno) !! live && 0 !in live
  }

  /** The new cluster joins the graph without disturbing anything in it. */
  lemma CreatedLinked(s: Sys, live: set<nat>, ino: nat, bno: nat)
    requires WellLinked(s, live) && Creatable(s, live, ino, bno)
    ensures WellLinked(Created(s, ino, bno), live + RunSet(bno))
    ensures Tidy(Created(s, ino, bno).disk[s.iBno[ino]].clusters)
  {
    hide NrClusters, Extended, BlockOk, RunSet, Tidy;
    var u, more, tb := Created(s, ino, bno), live + RunSet(bno), s.iBno[ino];
    RunSetIs(0, bno);
    RunSetIs(tb, bno);
    ExtendedTidy(s.disk[tb].clusters, bno);
    forall b | b in more
      ensures BlockOk(u, more, b)
    {
      if b in RunSet(bno) {
        NewDataOk(s, live, ino, bno, b);
      } else {
        CreatedBlockOk(s, live, ino, bno, b);
      }
    }
    forall i | i in u.iBno
      ensures u.iBno[i] in more && Owns(u.disk, i, u.iBno[i])
    {
      assert Owns(s.disk, i, s.iBno[i]);
      CreatedAt(s, live, ino, bno, s.iBno[i]);
    }
  }

  /** Only the table differs among the live blocks. */
  lemma CreatedAt(s: Sys, live: set<nat>, ino: nat, bno: nat, x: nat)
    requires Creatable(s, live, ino, bno) && x in live
    ensures var u, tb := Created(s, ino, bno), s.iBno[ino];
            && (x in u.disk <==> x in s.disk)
            && (x in s.disk ==>
                  u.disk[x] ==
                  if x == tb then s.disk[tb].(clusters := Extended(s.disk[tb].clusters, bno)) else s.disk[x])
            && (x in s.info ==> x in u.info && u.info[x] == s.info[x])
  {
    hide NrClusters, Extended, RunSet;
  }

  lemma NewDataOk(s: Sys, live: set<nat>, ino: nat, bno: nat, b: nat)
    requires WellLinked(s, live) && Creatable(s, live, ino, bno) && b in RunSet(bno)
    ensures BlockOk(Created(s, ino, bno), live + RunSet(bno), b)
  {
    hide NrClusters, Extended, Tidy, WellLinked;
    ExtendedTidy(s.disk[s.iBno[ino]].clusters, bno);
    LiveBlock(s, live, s.iBno[ino]);
    var u := Created(s, ino, bno);
    CreatedAt(s, live, ino, bno, s.iBno[ino]);
    TableIno(s, live, s.iBno[ino]);
    RunSetIs(b, bno);
    assert IsData(u.disk, b) && DataOk(u, live + RunSet(bno), b);
  }

  lemma TableIno(s: Sys, live: set<nat>, b: nat)
    requires WellLinked(s, live) && b in live && IsTable(s.disk, b)
    ensures s.disk[b].ino != 0 && s.disk[b].ino in s.iBno && s.iBno[s.disk[b].ino] == b
  {
    assert BlockOk(s, live, b);
  }

  lemma CreatedBlockOk(s: Sys, live: set<nat>, ino: nat, bno: nat, b: nat)
    requires WellLinked(s, live) && Creatable(s, live, ino, bno) && b in live
    ensures BlockOk(Created(s, ino, bno), live + RunSet(bno), b)
  {
    hide NrClusters, Extended, Tidy, WellLinked, TreeOk, NameOk, TableOk, DataOk, Created, RunSet;
    LiveBlock(s, live, b);
    CreatedAt(s, live, ino, bno, b);
    match s.disk[b]
    case TreeBlock(n) => CreatedTreeOk(s, live, ino, bno, b);
    case NameBlock(first, prev, next, _) => CreatedNameOk(s, live, ino, bno, b);
    case TableBlock(i, cs) => CreatedTableOk(s, live, ino, bno, b);
    case DataBlock(_) => CreatedDataOk(s, live, ino, bno, b);
  }

  lemma CreatedTreeOk(s: Sys, live: set<nat>, ino: nat, bno: nat, b: nat)
    requires WellLinked(s, live) && Creatable(s, live, ino, bno) && b in live && IsTree(s.disk, b)
    ensures TreeOk(Created(s, ino, bno), live + RunSet(bno), b, s.disk[b].node)
  {
    hide NrClusters, Extended, Tidy, WellLinked, Kids, RunSet, Created;
    LiveBlock(s, live, b);
    CreatedIBno(s, ino, bno);
    var n := s.disk[b].node;
    if n.root { CreatedAt(s, live, ino, bno, n.treeName); } else { CreatedAt(s, live, ino, bno, n.parent); }
    forall c | c in Kids(n)
      ensures c in live && Created(s, ino, bno).disk.Keys >= {c} && Created(s, ino, bno).disk[c] == s.disk[c]
    {
      CreatedAt(s, live, ino, bno, c);
    }
  }

  lemma CreatedIBno(s: Sys, ino: nat, bno: nat)
    requires ino in s.iBno && IsTable(s.disk, s.iBno[ino])
    ensures Created(s, ino, bno).iBno == s.iBno
  {
  }

  lemma CreatedNameOk(s: Sys, live: set<nat>, ino: nat, bno: nat, b: nat)
    requires WellLinked(s, live) && Creatable(s, live, ino, bno) && b in live && IsName(s.disk, b)
    ensures NameOk(Created(s, ino, bno), live + RunSet(bno), b, s.disk[b].first, s.disk[b].prev, s.disk[b].next)
  {
    hide NrClusters, Extended, Tidy, WellLinked, RunSet, Created;
    LiveBlock(s, live, b);
    CreatedIBno(s, ino, bno);
    var x := s.disk[b];
    if x.first { CreatedAt(s, live, ino, bno, s.iBno[x.prev]); } else { CreatedAt(s, live, ino, bno, x.prev); }
    if x.next != 0 { CreatedAt(s, live, ino, bno, x.next); }
  }

  lemma CreatedTableOk(s: Sys, live: set<nat>, ino: nat, bno: nat, b: nat)
    requires WellLinked(s, live) && Creatable(s, live, ino, bno) && b in live && IsTable(s.disk, b)
    ensures var u := Created(s, ino, bno);
            IsTable(u.disk, b) && TableOk(u, live + RunSet(bno), b, u.disk[b].ino, u.disk[b].clusters)
  {
    hide NrClusters, Extended, Tidy, WellLinked, RunOk;
    var u, more, cs := Created(s, ino, bno), live + RunSet(bno), s.disk[b].clusters;
    CreatedAt(s, live, ino, bno, b);
    TableIno(s, live, b);
    ExtendedTidy(s.disk[s.iBno[ino]].clusters, bno);
    var cs' := u.disk[b].clusters;
    forall c, k | 0 <= c < NrClusters(cs') && 0 <= k < CLUSTER_LEN
      ensures RunOk(u, more, u.disk[b].ino, cs', c, k)
    {
      if c < NrClusters(cs) {
        OldRunOk(s, live, ino, bno, b, c, k);
      } else {
        NewRunOk(s, live, ino, bno, c, k);
      }
    }
  }

  lemma OldRunOk(s: Sys, live: set<nat>, ino: nat, bno: nat, b: nat, c: nat, k: nat)
    requires WellLinked(s, live) && Creatable(s, live, ino, bno) && b in live && IsTable(s.disk, b)
    requires c < NrClusters(s.disk[b].clusters) && k < CLUSTER_LEN
    ensures var u := Created(s, ino, bno);
            IsTable(u.disk, b) && RunOk(u, live + RunSet(bno), u.disk[b].ino, u.disk[b].clusters, c, k)
  {
    hide NrClusters, Extended, Tidy;
    assert BlockOk(s, live, b);
    TableRun(s, live, b, c, k);
    ExtendedTidy(s.disk[s.iBno[ino]].clusters, bno);
    CreatedAt(s, live, ino, bno, b);
    CreatedAt(s, live, ino, bno, s.disk[b].clusters[c].start + k);
  }

  lemma NewRunOk(s: Sys, live: set<nat>, ino: nat, bno: nat, c: nat, k: nat)
    requires WellLinked(s, live) && Creatable(s, live, ino, bno) && c == NrClusters(s.disk[s.iBno[ino]].clusters)
             && k < CLUSTER_LEN
    ensures var u, b := Created(s, ino, bno), s.iBno[ino];
            IsTable(u.disk, b) && RunOk(u, live + RunSet(bno), ino, u.disk[b].clusters, c, k)
  {
    hide NrClusters, Extended, Tidy, WellLinked;
    LiveBlock(s, live, s.iBno[ino]);
    ExtendedTidy(s.disk[s.iBno[ino]].clusters, bno);
    CreatedAt(s, live, ino, bno, s.iBno[ino]);
    assert InRun(bno + k, bno) && bno + k in RunSet(bno);
  }

  lemma CreatedDataOk(s: Sys, live: set<nat>, ino: nat, bno: nat, b: nat)
    requires WellLinked(s, live) && Creatable(s, live, ino, bno) && b in live && IsData(s.disk, b)
    ensures DataOk(Created(s, ino, bno), live + RunSet(bno), b)
  {
    hide NrClusters, Extended, Tidy;
    assert BlockOk(s, live, b);
    var tb := s.iBno[s.info[b].ino];
    CreatedIBno(s, ino, bno);
    CreatedAt(s, live, ino, bno, b);
    CreatedAt(s, live, ino, bno, tb);
    ExtendedTidy(s.disk[s.iBno[ino]].clusters, bno);
  }

  /** Every block of every file that was mapped before keeps its place and its content. */
  lemma PhysKept(s: Sys, live: set<nat>, ino: nat, bno: nat, other: nat, i: nat)
    requires WellLinked(s, live) && Creatable(s, live, ino, bno) && Phys(TableOf(s, other), i).Some?
    ensures var u := Created(s, ino, bno);
            && Phys(TableOf(u, other), i) == Phys(TableOf(s, other), i)
            && FileBlock(u, other, i / CLUSTER_LEN, i % CLUSTER_LEN)
                 == FileBlock(s, other, i / CLUSTER_LEN, i % CLUSTER_LEN)
  {
    hide NrClusters, Tidy, Extended, WellLinked, RunSet;
    NoClusters();
    PhysKnown(s, live, other, i);
    CreatedIBno(s, ino, bno);
    ExtendedTidy(s.disk[s.iBno[ino]].clusters, bno);
    OwnTable(s, live, other);
    CreatedAt(s, live, ino, bno, s.iBno[other]);
    CreatedAt(s, live, ino, bno, Phys(TableOf(s, other), i).value);
    PhysStable(s.disk[s.iBno[ino]].clusters, bno, i);
  }

  lemma OwnTable(s: Sys, live: set<nat>, ino: nat)
    requires WellLinked(s, live) && ino in s.iBno
    ensures s.iBno[ino] in live && s.iBno[ino] in s.disk
  {
    assert BlockOk(s, live, s.iBno[ino]);
  }

  // ------------------------------------------------------------- release

  /** The data blocks of the first n clusters. */
  function RunsOf(cs: seq<Cluster>, n: nat): set<nat>
    requires n <= |cs|
  {
    if n == 0 then {} else RunsOf(cs, n - 1) + Range(cs[n - 1].start, cs[n - 1].len)
  }

  /** basicbtfs_file_free_blocks. As written, the block number it ends with is 0: bit 0 is
      cleared and the table's own block stays allocated. */
  method FileFreeBlocks(v: Volume, ino: nat, ghost live: set<nat>)
    requires v.Ready() && WellLinked(Snap(v), live) && live <= v.alloc.Used()
    requires ino in v.iBno && IsTable(v.blocks, v.iBno[ino]) && v.iBno[ino] in live
    modifies v`info, v.alloc, v.alloc.bits
    ensures var cs := v.blocks[v.iBno[ino]].clusters;
            && v.alloc.Used() == old(v.alloc.Used()) - RunsOf(cs, NrClusters(cs)) - {0}
            && v.info.Keys == old(v.info).Keys + RunsOf(cs, NrClusters(cs))
            && forall b | b in v.info ::
                 v.info[b] == if b in RunsOf(cs, NrClusters(cs)) then FileInfo(0, 0) else old(v.info)[b]
    ensures v.Ready() && v.iBno[ino] in v.alloc.Used() && 0 !in v.alloc.Used()
    ensures var cs := v.blocks[v.iBno[ino]].clusters;
            v.alloc.nrFree == (old(v.alloc.nrFree) + Prefix(cs, NrClusters(cs)) + 1) % U32
    ensures forall b | b in live ::
              b !in v.alloc.Used() <==> IsData(v.blocks, b) && b in old(v.info) && old(v.info)[b].ino == ino
  {
    hide WellLinked, NrClusters, SetBits, FreeBits, Range;
    ghost var s, used, m := Snap(v), v.alloc.Used(), v.info;
    var cs := v.blocks[v.iBno[ino]].clusters;
    var index := 0;
    ClustersUpTo(cs);
    UsedBits(v.alloc.bits[..]);
    while index < |cs| && cs[index].start != 0
      invariant index <= NrClusters(cs) <= |cs| && v.Ready()
      invariant v.alloc.Used() == used - RunsOf(cs, index)
      invariant v.alloc.nrFree == (old(v.alloc.nrFree) + Prefix(cs, index)) % U32
      invariant v.info.Keys == m.Keys + RunsOf(cs, index)
      invariant forall b | b in v.info :: v.info[b] == if b in RunsOf(cs, index) then FileInfo(0, 0) else m[b]
      decreases |cs| - index
    {
      UsedCount(cs, index);
      ClusterHeld(s, live, used, v.alloc.bits.Length, ino, cs, index);
      AddMod(old(v.alloc.nrFree) + Prefix(cs, index), cs[index].len);
      FreeCluster(v, cs[index].start, cs[index].len);
      index := index + 1;
    }
    if index < |cs| { UsedCount(cs, index); }
    TableApart(s, live, ino, cs, index);
    AddMod(old(v.alloc.nrFree) + Prefix(cs, index), 1);
    v.alloc.PutBlocks(0, 1);
    NullNotLive(s, live);
    forall b | b in live
      ensures b in RunsOf(cs, NrClusters(cs)) <==> IsData(v.blocks, b) && b in s.info && s.info[b].ino == ino
    {
      RunsExact(s, live, ino, b);
    }
  }

  lemma NullNotLive(s: Sys, live: set<nat>)
    requires WellLinked(s, live)
    ensures 0 !in live
  {
  }

  lemma {:induction false} InRuns(cs: seq<Cluster>, n: nat, b: nat)
    requires n <= |cs|
    ensures b in RunsOf(cs, n) <==> exists c: nat :: c < n && cs[c].start <= b < cs[c].start + cs[c].len
  {
    if n > 0 {
      InRuns(cs, n - 1, b);
    }
  }

  /** Of the live blocks, those of the file's clusters are those the reverse map gives it. */
  lemma RunsExact(s: Sys, live: set<nat>, ino: nat, b: nat)
    requires WellLinked(s, live) && ino in s.iBno && IsTable(s.disk, s.iBno[ino]) && s.iBno[ino] in live && b in live
    ensures var cs := s.disk[s.iBno[ino]].clusters;
            b in RunsOf(cs, NrClusters(cs)) <==> IsData(s.disk, b) && b in s.info && s.info[b].ino == ino
  {
    hide NrClusters, RunsOf;
    var tb := s.iBno[ino];
    var cs := s.disk[tb].clusters;
    InRuns(cs, NrClusters(cs), b);
    assert BlockOk(s, live, tb) && BlockOk(s, live, b);
    if c: nat :| c < NrClusters(cs) && cs[c].start <= b < cs[c].start + cs[c].len {
      TableRun(s, live, tb, c, 0);
      TableRun(s, live, tb, c, b - cs[c].start);
      OwnTable(s, live, ino);
      assert Owns(s.disk, ino, tb);
    }
    if IsData(s.disk, b) && b in s.info && s.info[b].ino == ino {
      TableRun(s, live, tb, s.info[b].cluster, 0);
      assert cs[s.info[b].cluster].start <= b < cs[s.info[b].cluster].start + cs[s.info[b].cluster].len;
    }
  }

  lemma AddMod(x: nat, y: nat)
    ensures (x % U32 + y) % U32 == (x + y) % U32
  {
  }

  lemma ClustersUpTo(cs: seq<Cluster>)
    ensures NrClusters(cs) <= |cs|
  {
  }

  lemma UsedBits(bits: seq<bool>)
    ensures forall b | b in SetBits(bits) :: b < |bits|
  {
  }

  /** One cluster: forgotten by the reverse map, then released, block by block. */
  method FreeCluster(v: Volume, start: nat, len: nat)
    requires v.Ready() && start + len <= v.alloc.bits.Length
    modifies v`info, v.alloc, v.alloc.bits
    ensures v.Ready() && v.alloc.Used() == old(v.alloc.Used()) - Range(start, len)
    ensures v.alloc.nrFree == (old(v.alloc.nrFree) + len) % U32
    ensures v.info.Keys == old(v.info).Keys + Range(start, len)
    ensures forall b | b in v.info :: v.info[b] == if b in Range(start, len) then FileInfo(0, 0) else old(v.info)[b]
  {
    hide SetBits, FreeBits, Range;
    var i := 0;
    RangeStep(start, 0);
    while i < len
      invariant i <= len && v.Ready() && v.alloc.Used() == old(v.alloc.Used()) - Range(start, i)
      invariant v.alloc.nrFree == (old(v.alloc.nrFree) + i) % U32
      invariant v.info.Keys == old(v.info).Keys + Range(start, i)
      invariant forall b | b in v.info :: v.info[b] == if b in Range(start, i) then FileInfo(0, 0) else old(v.info)[b]
    {
      AddMod(old(v.alloc.nrFree) + i, 1);
      v.info := v.info[start + i := FileInfo(0, 0)];
      v.alloc.PutBlocks(start + i, 1);
      RangeStep(start, i);
      i := i + 1;
    }
  }

  /** A cluster of the file is allocated and inside the volume. */
  lemma ClusterHeld(s: Sys, live: set<nat>, used: set<nat>, size: nat, ino: nat, cs: seq<Cluster>, c: nat)
    requires WellLinked(s, live) && live <= used && ino in s.iBno && IsTable(s.disk, s.iBno[ino]) && s.iBno[ino] in live
    requires cs == s.disk[s.iBno[ino]].clusters && c < NrClusters(cs) <= |cs|
    requires forall b | b in used :: b < size
    ensures cs[c].start + cs[c].len <= size
  {
    hide NrClusters;
    var tb := s.iBno[ino];
    assert BlockOk(s, live, tb);
    TableRun(s, live, tb, c, CLUSTER_LEN - 1);
  }

  lemma {:induction false} TableApart(s: Sys, live: set<nat>, ino: nat, cs: seq<Cluster>, n: nat)
    requires WellLinked(s, live) && ino in s.iBno && IsTable(s.disk, s.iBno[ino]) && s.iBno[ino] in live
    requires cs == s.disk[s.iBno[ino]].clusters && n <= NrClusters(cs) <= |cs|
    ensures s.iBno[ino] !in RunsOf(cs, n) && s.iBno[ino] != 0
  {
    hide NrClusters, Range, WellLinked;
    LiveBlock(s, live, s.iBno[ino]);
    if n > 0 {
      TableApart(s, live, ino, cs, n - 1);
      TableNotRun(s, live, ino, cs, n - 1);
    }
  }

  lemma TableNotRun(s: Sys, live: set<nat>, ino: nat, cs: seq<Cluster>, c: nat)
    requires WellLinked(s, live) && ino in s.iBno && IsTable(s.disk, s.iBno[ino]) && s.iBno[ino] in live
    requires cs == s.disk[s.iBno[ino]].clusters && c < NrClusters(cs) <= |cs|
    ensures s.iBno[ino] !in Range(cs[c].start, cs[c].len)
  {
    hide NrClusters;
    var tb := s.iBno[ino];
    assert BlockOk(s, live, tb);
    TableRun(s, live, tb, c, 0);
    if 0 <= tb - cs[c].start < CLUSTER_LEN {
      TableRun(s, live, tb, c, tb - cs[c].start);
    }
  }
}
