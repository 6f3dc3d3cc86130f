/** basicbtfs_defrag_disk: what a run over the whole volume achieves. */
module DefragRun {
  import opened Entries
  import opened BTree
  import opened Blocks
  import opened Bitmap
  import opened System
  import opened DiskTree
  import opened Relocate
  import opened Defrag
  import opened DefragNode
  import opened DefragTree
  import opened DefragWhole
  import opened DefragTable
  import opened DefragFile
  import opened DefragFileWhole
  import opened NameRecords
  import opened NameBlocks
  import opened NameCompact
  import opened Wording
  import opened NamePhases
  import opened NamePull
  import opened DefragDirs
  import opened DefragNames
  import opened DefragJobs
  import opened DefragObjects
  import opened DefragDirectories
  import NameList
  import Directory

  // -------------------------------------------- entries address their records

  lemma {:induction false} DictAt(s: seq<Entry>, i: nat)
    requires Sorted(s) && i < |s|
    ensures s[i].hash in Dict(s) && Dict(s)[s[i].hash] == s[i]
  {
    if i > 0 {
      DictAt(s[1..], i - 1);
    }
  }

  lemma {:induction false} DictFrom(s: seq<Entry>, x: nat)
    requires x in Dict(s)
    ensures Dict(s)[x] in s && Dict(s)[x].hash == x
  {
    if s[0].hash != x {
      DictFrom(s[1..], x);
    }
  }

  /** A live record of the list lies somewhere in it. */
  lemma {:induction false} RecordPlace(recs: seq<seq<Rec>>, r: Rec) returns (i: nat, k: nat)
    requires r in NameList.AllLive(recs)
    ensures Directory.LiveAt(recs, i, k) && recs[i][k] == r
  {
    if r in Live(recs[0]) {
      i := 0;
      k := LivePlace(recs[0], r);
    } else {
      var j, l := RecordPlace(recs[1..], r);
      i, k := j + 1, l;
    }
  }

  lemma {:induction false} LivePlace(rs: seq<Rec>, r: Rec) returns (k: nat)
    requires r in Live(rs)
    ensures k < |rs| && rs[k] == r && IsLive(r)
  {
    if IsLive(rs[0]) && rs[0] == r {
      k := 0;
    } else {
      var j := LivePlace(rs[1..], r);
      k := j + 1;
    }
  }

  lemma PlacedRecord(recs: seq<seq<Rec>>, i: nat, k: nat)
    requires Directory.LiveAt(recs, i, k)
    ensures recs[i][k] in NameList.AllLive(recs)
  {
    hide Live;
    NameList.LiveOfBlock(recs, i);
    LiveMember(recs[i], k);
  }

  lemma NameOfItem(r: Rec)
    ensures Directory.NameOf(r) == ItemOf(r).name
  {
  }

  /** The entry of a record is the one that addresses it. */
  lemma RecordAddressed(h: Hash, p: DirState, i: nat, k: nat)
    requires AllTold(h, p, |p.names|) && Matched(h, Flat(p.tr), NameList.AllLive(p.recs)) && Sorted(Flat(p.tr))
             && |p.names| == |p.recs|
    requires Directory.LiveAt(p.recs, i, k)
    ensures Directory.Recorded(h, Dict(Flat(p.tr)), Directory.Names(p.names, p.recs), i, k)
  {
    hide Flat, Live, OffsetOf, ItemOf, Directory.NameOf, Distinguished;
    var es, r := Flat(p.tr), p.recs[i][k];
    var x := h(ItemOf(r).name);
    PlacedRecord(p.recs, i, k);
    NameOfItem(r);
    assert HasFile(es, x, r.ino);
    var a :| 0 <= a < |es| && es[a].hash == x && es[a].ino == r.ino;
    assert ToldUpto(es, h, p.names[i], p.recs[i], |p.recs[i]|);
    assert At(es, x, Place(p.names[i], OffsetOf(p.recs[i], k)));
    DictAt(es, a);
  }

  /** After the run the entries of a directory and its live records are in bijection again,
      each entry addressing its record. */
  lemma DoneAddressed(s: Sys, live: set<nat>, t: nat, h: Hash, p: DirState)
    requires DirAt(s, live, t, h, p) && AllTold(h, p, |p.names|)
    ensures Directory.Addressed(h, Dict(Flat(p.tr)), Directory.Names(p.names, p.recs))
  {
    hide Flat, Live, OffsetOf, ItemOf, Foot, Rep, Apart, Shape, Matched, HoldsRecs, AllTold, Directory.Recorded;
    var m, nm := Dict(Flat(p.tr)), Directory.Names(p.names, p.recs);
    forall i: nat, k: nat | Directory.LiveAt(p.recs, i, k)
      ensures Directory.Recorded(h, m, nm, i, k)
    {
      RecordAddressed(h, p, i, k);
    }
    forall x | x in m
      ensures Directory.HasRecord(h, m[x], nm, x)
    {
      DictFrom(Flat(p.tr), x);
      EntryAddresses(h, p, m, x);
    }
  }

  lemma EntryAddresses(h: Hash, p: DirState, m: map<nat, Entry>, x: nat)
    requires Matched(h, Flat(p.tr), NameList.AllLive(p.recs)) && |p.names| == |p.recs| && m == Dict(Flat(p.tr))
    requires x in m && m[x] in Flat(p.tr) && m[x].hash == x
    requires forall i: nat, k: nat | Directory.LiveAt(p.recs, i, k) ::
               Directory.Recorded(h, m, Directory.Names(p.names, p.recs), i, k)
    ensures Directory.HasRecord(h, m[x], Directory.Names(p.names, p.recs), x)
  {
    hide Flat, Live, OffsetOf, ItemOf, Directory.NameOf, Distinguished, Dict;
    assert DefragDirs.HasRecord(h, NameList.AllLive(p.recs), m[x].hash);
    var r :| r in NameList.AllLive(p.recs) && h(ItemOf(r).name) == x;
    var i, k := RecordPlace(p.recs, r);
    NameOfItem(r);
    assert Directory.Recorded(h, m, Directory.Names(p.names, p.recs), i, k);
  }

  // ------------------------------------------------------ how much there is

  lemma {:induction false} NamesCount(names: seq<nat>)
    requires NameList.NoRepeats(names)
    ensures |NameSet(names)| == |names|
  {
    if names != [] {
      var n := |names| - 1;
      NamesCount(names[..n]);
      assert NameSet(names) == NameSet(names[..n]) + {names[n]};
      assert names[n] !in NameSet(names[..n]);
    }
  }

  ghost function RunsTo(cs: seq<Cluster>, n: nat): set<nat>
    requires n <= |cs|
  {
    if n == 0 then {} else RunsTo(cs, n - 1) + RunSet(cs[n - 1].start)
  }

  lemma RunSize(a: nat)
    ensures |RunSet(a)| == CLUSTER_LEN
  {
    RangeIsRun(a);
    RangeSize(a, CLUSTER_LEN);
  }

  /** The first n clusters of a file are so many blocks. */
  lemma {:induction false} RunsCount(s: Sys, live: set<nat>, ino: nat, n: nat)
    requires WellLinked(s, live) && ino in s.iBno && IsTable(s.disk, s.iBno[ino])
             && n <= NrClusters(ClustersOf(s, ino)) <= |ClustersOf(s, ino)|
    ensures |RunsTo(ClustersOf(s, ino), n)| == CLUSTER_LEN * n
            && RunsTo(ClustersOf(s, ino), n) <= FileBlocks(s, live, ino)
    ensures forall x | x in RunsTo(ClustersOf(s, ino), n) :: x in s.info && s.info[x].cluster < n && IsData(s.disk, x)
  {
    hide WellLinked, NrClusters, OfFile, RunSet;
    if n > 0 {
      var cs := ClustersOf(s, ino);
      var a := cs[n - 1].start;
      RunsCount(s, live, ino, n - 1);
      ClusterOfFile(s, live, ino, n - 1);
      RunData(s, live, ino, n - 1);
      forall x
        ensures x in RunSet(a) ==> InRun(x, a)
      {
        InRunSet(x, a);
      }
      RunSize(a);
      SizeOfUnion(RunsTo(cs, n - 1), RunSet(a));
    }
  }

  lemma InRunSet(x: int, a: nat)
    ensures x in RunSet(a) ==> 0 <= x && InRun(x, a)
  {
  }

  lemma RunData(s: Sys, live: set<nat>, ino: nat, c: nat)
    requires WellLinked(s, live) && ino in s.iBno && IsTable(s.disk, s.iBno[ino]) && c < NrClusters(ClustersOf(s, ino))
    ensures forall x | InRun(x, ClustersOf(s, ino)[c].start) :: IsData(s.disk, x)
  {
    hide WellLinked, NrClusters;
    InodeLive(s, live, ino);
    LiveTable(s, live, s.iBno[ino]);
    forall x: nat | InRun(x, ClustersOf(s, ino)[c].start)
      ensures IsData(s.disk, x)
    {
      TableRun(s, live, s.iBno[ino], c, x - ClustersOf(s, ino)[c].start);
    }
  }

  lemma JobCount(s: Sys, live: set<nat>, t: nat, h: Hash, j: Job)
    requires WellLinked(s, live) && JobAt(s, live, t, h, j)
    ensures JobSize(j) <= |JobBlocks(s, live, j)|
  {
    hide WellLinked, Foot, Flat, Matched, Rep, Shape, Sorted, HoldsRecs, NrClusters, OfFile, RunSet;
    match j {
      case DirJob(p) =>
        FootSize(p.loc);
        NamesCount(p.names);
        NamesApart(s, live, t, h, p);
        SizeOfUnion(Foot(p.loc), NameSet(p.names));
      case FileJob(ino, n) =>
        ClustersUsed(ClustersOf(s, ino));
        RunsCount(s, live, ino, n);
        TableOfFile(s, live, ino);
        var runs := RunsTo(ClustersOf(s, ino), n);
        SizeOfUnion(runs, {s.iBno[ino]});
        SizeOfSubset(runs + {s.iBno[ino]}, FileBlocks(s, live, ino));
    }
  }

  lemma ClustersUsed(cs: seq<Cluster>)
    ensures NrClusters(cs) <= |cs|
  {
  }

  ghost function FirstBlocks(s: Sys, live: set<nat>, jobs: seq<Job>, k: nat): set<nat>
    requires k <= |jobs|
  {
    if k == 0 then {} else FirstBlocks(s, live, jobs, k - 1) + JobBlocks(s, live, jobs[k - 1])
  }

  lemma {:induction false} FirstCount(s: Sys, live: set<nat>, t: nat, h: Hash, jobs: seq<Job>, k: nat, base: nat)
    requires Stocked(s, live, t, h, jobs) && k <= |jobs|
    ensures Off(jobs, k, base) <= base + |FirstBlocks(s, live, jobs, k)| && FirstBlocks(s, live, jobs, k) <= live
    ensures forall i | k <= i < |jobs| :: FirstBlocks(s, live, jobs, k) !! JobBlocks(s, live, jobs[i])
  {
    hide Stocked, JobBlocks, JobSize, Off, WellLinked, JobAt;
    if k > 0 {
      var before, more := FirstBlocks(s, live, jobs, k - 1), JobBlocks(s, live, jobs[k - 1]);
      FirstCount(s, live, t, h, jobs, k - 1, base);
      StockedJob(s, live, t, h, jobs, k - 1);
      StockedLinked(s, live, t, h, jobs);
      JobCount(s, live, t, h, jobs[k - 1]);
      OffNext(jobs, k - 1, base);
      SizeOfUnion(before, more);
      forall i | k <= i < |jobs|
        ensures before + more !! JobBlocks(s, live, jobs[i])
      {
        StockedApart(s, live, t, h, jobs, k - 1, i);
      }
    } else {
      NoOff(jobs, base);
    }
  }

  lemma NoOff(jobs: seq<Job>, base: nat)
    ensures Off(jobs, 0, base) == base
  {
  }

  /** All wanted places lie below the high-water mark. */
  lemma AllFit(s: Sys, live: set<nat>, t: nat, h: Hash, jobs: seq<Job>, base: nat, mark: nat)
    requires Stocked(s, live, t, h, jobs) && Floor(live, base) && AllBelow(live, mark) && base <= mark
    ensures Off(jobs, |jobs|, base) <= mark
  {
    hide Stocked, Off;
    FirstCount(s, live, t, h, jobs, |jobs|, base);
    var all := Range(base, mark - base);
    var first := FirstBlocks(s, live, jobs, |jobs|);
    assert first <= all;
    RangeSize(base, mark - base);
    SizeOfSubset(first, all);
  }

  // ------------------------------------------------------------- the whole run

  /** A volume on which every allocated block from base on belongs to exactly one object, no
      object's way leads through one of the cases in which the code goes wrong, and there is
      room past the high-water mark for whatever is in the way. */
  ghost predicate CanDefrag(v: Volume, o: Origin)
    reads v, v.alloc, v.alloc.bits
  {
    && o.s == Snap(v) && Steady(v, o.live, o.base) && 0 < o.base <= v.alloc.unused
    && Stocked(o.s, o.live, v.t, o.h, o.jobs) && Floor(o.live, o.base)
    && (forall j | 0 <= j < |o.jobs| :: Pending(o.s, o.live, o.jobs[j], Off(o.jobs, j, o.base)))
    && v.alloc.unused + (1 + CLUSTER_LEN) * (Off(o.jobs, |o.jobs|, o.base) - o.base) <= v.alloc.bits.Length
  }

  /** The run can begin. */
  lemma Begin(v: Volume, o: Origin)
    requires CanDefrag(v, o)
    ensures Sweeping(v, o, o.jobs, Idle(o.live), 0)
  {
    hide WellLinked, HonestAll, Stocked, Pending, Moved, Along, NoStraddle, SetBits, SameJob, JobBlocks;
    var s, live, r := o.s, o.live, Idle(o.live);
    IdleMap(live);
    StockedLinked(s, live, v.t, o.h, o.jobs);
    MovedNowhere(s, live, r);
    AlongMoved(s, live, r, s);
    AlongMore(s, live, r, s, {}, live);
    StartsAbove(s, live, o.base);
    LiveBelow(v.alloc.Used(), v.alloc.unused, v.alloc.bits.Length, live, o.base, live);
    AllFit(s, live, v.t, o.h, o.jobs, o.base, v.alloc.unused);
    forall j | 0 <= j < |o.jobs|
      ensures SameJob(r, o.jobs[j], o.jobs[j]) && Waiting(s, live, o.jobs, 0, j, o.base)
    {
      StockedJob(s, live, v.t, o.h, o.jobs, j);
      IdleJob(s, live, v.t, o.h, o.jobs[j]);
    }
  }

  lemma IdleJob(s: Sys, live: set<nat>, t: nat, h: Hash, j: Job)
    requires JobAt(s, live, t, h, j)
    ensures SameJob(Idle(live), j, j)
  {
    hide Foot, Flat, Indexed, Matched, SameFiles;
    if j.DirJob? {
      MapFixed(Idle(live), j.dir.loc);
      RolledAll(s.disk, live, j.dir.names, j.dir.recs);
      assert MapNames(Idle(live), j.dir.names) == j.dir.names;
      SameFilesSelf(Flat(j.dir.tr));
    }
  }

  lemma StartsAbove(s: Sys, live: set<nat>, base: nat)
    requires WellLinked(s, live) && Floor(live, base)
    ensures NoStraddle(s, live, base)
  {
    hide WellLinked, StartOf;
    forall y | y in live && IsData(s.disk, y) && base <= y
      ensures base <= StartOf(s, y)
    {
      StartFacts(s, live, y);
    }
  }

  /** When all jobs are finished, exactly the places up to the last one are live. */
  lemma AllPlaced(s: Sys, live: set<nat>, t: nat, h: Hash, jobs: seq<Job>, base: nat)
    requires Stocked(s, live, t, h, jobs) && Swept(s, live, h, jobs, |jobs|, base)
    ensures forall b :: b in live <==> base <= b < Off(jobs, |jobs|, base)
  {
    hide Stocked, Done, Off, JobBlocks;
    StockedLinked(s, live, t, h, jobs);
    forall b | b in live
      ensures base <= b < Off(jobs, |jobs|, base)
    {
      var i := StockedCovers(s, live, t, h, jobs, b);
      StockedJob(s, live, t, h, jobs, i);
      DoneBlocks(s, live, t, h, jobs[i], Off(jobs, i, base));
      OffGrows(jobs, i, |jobs|, base);
    }
    forall b | base <= b < Off(jobs, |jobs|, base)
      ensures b in live
    {
      var i := JobOf(jobs, |jobs|, base, b);
      StockedJob(s, live, t, h, jobs, i);
      DoneBlocks(s, live, t, h, jobs[i], Off(jobs, i, base));
      OffNext(jobs, i, base);
    }
  }

  lemma {:induction false} JobOf(jobs: seq<Job>, k: nat, base: nat, b: nat) returns (i: nat)
    requires k <= |jobs| && base <= b < Off(jobs, k, base)
    ensures i < k && Off(jobs, i, base) <= b < Off(jobs, i, base) + JobSize(jobs[i])
  {
    if b >= Off(jobs, k - 1, base) {
      i := k - 1;
    } else {
      i := JobOf(jobs, k - 1, base, b);
    }
  }

  /** What a finished run means. */
  ghost predicate Defragmented(u: Sys, used: set<nat>, t: nat, o: Origin, r: map<nat, nat>, jobs: seq<Job>, end: nat) {
    && end == Off(o.jobs, |o.jobs|, o.base)
    && (forall b | o.base <= b :: b in used <==> b < end)
    && |jobs| == |o.jobs|
    && (forall j | 0 <= j < |jobs| ::
          && SameJob(r, o.jobs[j], jobs[j]) && RepackedJob(o.jobs[j], jobs[j], true)
          && JobAt(u, r.Values, t, o.h, jobs[j])
          && Done(u, o.h, jobs[j], Off(o.jobs, j, o.base)))
    && (forall j | 0 <= j < |jobs| && jobs[j].DirJob? ::
          Directory.Addressed(o.h, Dict(Flat(jobs[j].dir.tr)), Directory.Names(jobs[j].dir.names, jobs[j].dir.recs)))
    && (forall ino, c: nat, k: nat | k < CLUSTER_LEN && IsFileCluster(o.s, ino, c) ::
          FileBlock(u, ino, c, k) == FileBlock(o.s, ino, c, k))
    && WellLinked(u, r.Values)
  }

  lemma Finish(v: Volume, o: Origin, jobs: seq<Job>, r: map<nat, nat>)
    requires Sweeping(v, o, jobs, r, |jobs|)
    ensures Defragmented(Snap(v), v.alloc.Used(), v.t, o, r, jobs, Off(jobs, |jobs|, o.base))
  {
    hide WellLinked, HonestAll, Stocked, Along, NoStraddle, SetBits, SameJob, JobBlocks, Off, JobAt, Done, FileBlock,
         NrClusters, AllBelow;
    var u, live, base := Snap(v), r.Values, o.base;
    StockedLinked(o.s, o.live, v.t, o.h, o.jobs);
    StockedLinked(u, live, v.t, o.h, jobs);
    AllPlaced(u, live, v.t, o.h, jobs, base);
    JobsSame(r, o.jobs, jobs);
    forall j | 0 <= j < |jobs|
      ensures SameJob(r, o.jobs[j], jobs[j]) && RepackedJob(o.jobs[j], jobs[j], true)
      ensures JobAt(u, live, v.t, o.h, jobs[j])
              && Done(u, o.h, jobs[j], Off(o.jobs, j, base))
      ensures jobs[j].DirJob? ==>
                Directory.Addressed(o.h, Dict(Flat(jobs[j].dir.tr)),
                                    Directory.Names(jobs[j].dir.names, jobs[j].dir.recs))
    {
      StockedJob(u, live, v.t, o.h, jobs, j);
      OffSame(o.jobs, jobs, j, base);
      if jobs[j].DirJob? { JobAddressed(u, live, v.t, o.h, jobs[j], Off(jobs, j, base)); }
    }
    OffSame(o.jobs, jobs, |jobs|, base);
    forall ino, c: nat, k: nat | k < CLUSTER_LEN && IsFileCluster(o.s, ino, c)
      ensures FileBlock(u, ino, c, k) == FileBlock(o.s, ino, c, k)
    {
      FileAlong(o.s, o.live, r, u, o.live, ino, c, k);
    }
    forall b | base <= b
      ensures b in v.alloc.Used() <==> b < Off(jobs, |jobs|, base)
    {
    }
  }

  lemma JobAddressed(s: Sys, live: set<nat>, t: nat, h: Hash, j: Job, off: nat)
    requires JobAt(s, live, t, h, j) && Done(s, h, j, off) && j.DirJob?
    ensures Directory.Addressed(h, Dict(Flat(j.dir.tr)), Directory.Names(j.dir.names, j.dir.recs))
  {
    hide DirAt, AllTold, Flat;
    DoneAddressed(s, live, t, h, j.dir);
  }

  lemma JobsSame(r: map<nat, nat>, a: seq<Job>, b: seq<Job>)
    requires |a| == |b| && forall j | 0 <= j < |a| :: SameJob(r, a[j], b[j])
    ensures SameSizes(a, b)
  {
    hide Flat;
    forall j | 0 <= j < |a|
      ensures JobSize(a[j]) == JobSize(b[j])
    {
      if a[j].DirJob? { OrderedMapped(r, a[j].dir.loc, 0); }
    }
  }

  /** basicbtfs_defrag_disk: afterwards the allocated blocks from the first data block on are
      exactly those up to the final offset; every directory names the same files and has the
      same names in the same order, each entry addressing its record; every file reads the
      same; and each object lies in one piece. */
  method DefragDisk(v: Volume, ino: nat, start: nat, h: Hash, kind: nat -> Kind, ghost p: Plan, ghost o: Origin)
    returns (ok: bool, ghost jobs: seq<Job>, ghost r: map<nat, nat>)
    requires CanDefrag(v, o) && start == o.base && h == o.h
    requires PlanOk(kind, p) && p.ino == ino && Outlines(o.jobs) == PlanOutline(p)
    modifies v`blocks, v`iBno, v`info, v.alloc, v.alloc.bits
    ensures ok && Defragmented(Snap(v), v.alloc.Used(), v.t, o, r, jobs, v.alloc.unused)
  {
    hide Sweeping, Off, Occupies, Outlines, PlanOutline, PlanOk, CanDefrag, Defragmented;
    Begin(v, o);
    WholePlan(o.jobs, p);
    var offset := start;
    NoOff(o.jobs, o.base);
    ok, offset, jobs, r := DefragDirectory(v, ino, offset, h, kind, p, o, o.jobs, Idle(o.live), 0);
    if !ok {
      return;
    }
    Finish(v, o, jobs, r);
    v.alloc.unused := offset;
  }

  lemma WholePlan(jobs: seq<Job>, p: Plan)
    requires Outlines(jobs) == PlanOutline(p)
    ensures Occupies(Outlines(jobs), 0, PlanOutline(p)) && |PlanOutline(p)| == |jobs|
  {
    hide PlanOutline;
    assert Outlines(jobs)[0..|jobs|] == Outlines(jobs);
  }

  // ------------------------------------------------------------- a small volume

  /** An empty directory whose root lies at 12, behind its name list at 11, on a volume whose
      first data block is 10. */
  function SmallVolume(): Sys {
    Sys(map[11 := Pack(NBlk(true, 1, 0, 0, CAPACITY, FIRST_RECORD, Zeroes(BLOCK_SIZE, 0))),
            12 := TreeBlock(BNode([ZERO_ENTRY, ZERO_ENTRY, ZERO_ENTRY], [0, 0, 0, 0], 1, 11, 0, 0, true, true))],
        map[1 := 12], map[])
  }

  const SMALL_DIR := DirState(1, Loc(12, []), Node([], []), 0, [11], [[]])

  /** It is one on which a run can begin. */
  lemma SmallReady(h: Hash)
    ensures var s, live, jobs := SmallVolume(), {11, 12}, [DirJob(SMALL_DIR)];
            && Stocked(s, live, 2, h, jobs) && Floor(live, 10) && Off(jobs, 1, 10) == 12
            && Pending(s, live, jobs[0], Off(jobs, 0, 10)) && PlanOk((i: nat) => Dir, Plan(1, [], []))
            && Outlines(jobs) == PlanOutline(Plan(1, [], []))
  {
    hide Parsed, DirAt, Stocked;
    var s, live, jobs := SmallVolume(), {11, 12}, [DirJob(SMALL_DIR)];
    SmallLinked();
    SmallDir(h);
    assert Foot(SMALL_DIR.loc) == {12} && NameSet([11]) == {11};
    assert JobBlocks(s, live, jobs[0]) == live;
    assert Covered(s, live, jobs, 11) && Covered(s, live, jobs, 12);
    StockedIs(s, live, 2, h, jobs);
    assert Inos([]) == [];
    assert Outlines(jobs)[0] == DirOutline(1, []);
  }

  lemma SmallLinked()
    ensures WellLinked(SmallVolume(), {11, 12})
  {
    var s, live := SmallVolume(), {11, 12};
    assert Kids(s.disk[12].node) == [];
    assert BlockOk(s, live, 11) && BlockOk(s, live, 12);
  }

  lemma SmallDir(h: Hash)
    ensures DirAt(SmallVolume(), {11, 12}, 2, h, SMALL_DIR)
  {
    hide Parsed;
    var s, p := SmallVolume(), SMALL_DIR;
    var x := NBlk(true, 1, 0, 0, CAPACITY, FIRST_RECORD, Zeroes(BLOCK_SIZE, 0));
    EmptyParsed(x);
    PackUnpack(x);
    assert HoldsRecs(s.disk, 11, []);
    assert RollAt(s.disk, {11, 12}, p.names, p.recs, 0);
    assert s.disk[12].node.entries[..0] == [];
    LeafFlat(p.tr);
    LiveEmpty();
    assert NameList.AllLive(p.recs) == [];
  }
}
