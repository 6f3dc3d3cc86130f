/** One directory's tree and name list, or one file: each is a step of the run over the whole
    volume. */
module DefragObjects {
  import opened BTree
  import opened Blocks
  import opened Bitmap
  import opened System
  import opened DiskTree
  import opened Relocate
  import opened Defrag
  import opened DefragNode
  import opened DefragTree
  import opened DefragWhole
  import opened DefragTable
  import opened DefragFileWhole
  import opened Wording
  import opened NamePhases
  import opened NameFill
  import opened DefragDirs
  import opened DefragNames
  import opened DefragJobs

  // ------------------------------------------------------------- one directory

  /** The tree of a directory that is to be done is in the position its walk asks for. */
  lemma DirWaiting(s: Sys, live: set<nat>, t: nat, h: Hash, jobs: seq<Job>, k: nat, base: nat)
    requires Stocked(s, live, t, h, jobs) && Swept(s, live, h, jobs, k, base) && k < |jobs| && jobs[k].DirJob?
    ensures var p, off := jobs[k].dir, Off(jobs, k, base);
            && DirAt(s, live, t, h, p) && Floor(Foot(p.loc), off) && Floor(NameSet(p.names), off)
            && DirBlocks(p) <= live
            && NoClash(p.loc, off) && NamesClear(p.names, 0, off + Nodes(p.loc)) && Foot(p.loc) !! NameSet(p.names)
            && base <= off && Off(jobs, k + 1, base) == off + Nodes(p.loc) + |p.names| <= Off(jobs, |jobs|, base)
  {
    hide WellLinked, DirAt, Foot, NoClash, Stocked, Off, NamesClear, Nodes, Floor, Swept;
    StockedJob(s, live, t, h, jobs, k);
    NextWaits(s, live, h, jobs, k, base);
    PartsAbove(Foot(jobs[k].dir.loc), NameSet(jobs[k].dir.names), Off(jobs, k, base));
    OffNext(jobs, k, base);
    OffGrows(jobs, k + 1, |jobs|, base);
    NamesApart(s, live, t, h, jobs[k].dir);
  }

  lemma NextWaits(s: Sys, live: set<nat>, h: Hash, jobs: seq<Job>, k: nat, base: nat)
    requires Swept(s, live, h, jobs, k, base) && k < |jobs|
    ensures Pending(s, live, jobs[k], Off(jobs, k, base)) && Floor(JobBlocks(s, live, jobs[k]), Off(jobs, k, base))
            && base <= Off(jobs, k, base)
  {
    hide Pending, JobBlocks, Floor, Done, Off;
    assert Waiting(s, live, jobs, k, k, base);
  }

  lemma PartsAbove(a: set<nat>, b: set<nat>, off: nat)
    requires Floor(a + b, off)
    ensures Floor(a, off) && Floor(b, off)
  {
  }

  lemma NamesApart(s: Sys, live: set<nat>, t: nat, h: Hash, p: DirState)
    requires DirAt(s, live, t, h, p)
    ensures Foot(p.loc) !! NameSet(p.names)
  {
    hide DirAt, Foot;
    forall i | 0 <= i < |p.names|
      ensures p.names[i] !in Foot(p.loc)
    {
      NameNotInTree(s, live, t, h, p, i);
    }
  }

  /** After the tree is placed the name list is ready for its own walk. */
  lemma TreeThenNames(s: Sys, live: set<nat>, t: nat, h: Hash, p: DirState, q: map<nat, nat>, u: Sys, off: nat,
                      mark: nat)
    requires WellLinked(s, live) && DirAt(s, live, t, h, p) && Moved(q, s, live, u)
             && MapLoc(q, p.loc) == Ordered(p.loc, off)
    requires WalkMap(q, live, Foot(p.loc), off, mark) && off + Nodes(p.loc) + |p.names| <= mark
    requires Floor(NameSet(p.names), off) && DirBlocks(p) <= live && Foot(p.loc) !! NameSet(p.names)
    requires NamesClear(p.names, 0, off + Nodes(p.loc))
    ensures var p', o := MapDir(q, p), off + Nodes(p.loc);
            && DirAt(u, q.Values, t, h, p') && AllBelow(Foot(p'.loc), o) && InOrder(p'.names, 0, o)
            && NamesClear(p'.names, 0, o)
            && |p'.names| == |p'.recs| && AllTold(h, p', 0)
  {
    hide WellLinked, DirAt, Foot, Moved, Injective, WalkMap, Floor, InOrder, NamesClear, Image;
    var p', o := MapDir(q, p), off + Nodes(p.loc);
    MovedInjective(q, s, live, u);
    DirMoved(q, s, live, u, t, h, p);
    FirstName(u, q.Values, t, h, p');
    NameNotInTree(u, q.Values, t, h, p', 0);
    OrderedFoot(p.loc, off);
    MapFoot(q, p.loc);
    KeptClear(q, live, Foot(p.loc), off, o, mark, NameSet(p.names));
    NamesBehind(q, live, p.names, Foot(p.loc), off, o, mark);
    IntervalBelow(Foot(p'.loc), off, o);
  }

  lemma IntervalBelow(s: set<nat>, from: nat, to: nat)
    requires IsInterval(s, from, to)
    ensures AllBelow(s, to)
  {
  }

  /** The list lies behind the tree, and its way is still clear. */
  lemma NamesBehind(q: map<nat, nat>, live: set<nat>, names: seq<nat>, placed: set<nat>, off: nat, o: nat, mark: nat)
    requires WalkMap(q, live, placed, off, mark) && NameSet(names) <= live && placed !! NameSet(names)
             && o + |names| <= mark
    requires Floor(Image(q, NameSet(names)), o) && NamesClear(names, 0, o)
    ensures InOrder(MapNames(q, names), 0, o) && NamesClear(MapNames(q, names), 0, o)
  {
    forall i | 0 <= i < |names|
      ensures o <= MapNames(q, names)[i]
      ensures 0 < i ==> MapNames(q, names)[i] != o + (i - 1)
    {
      var x := names[i];
      assert x in NameSet(names) && x in q && x !in placed;
      ImageHas(q, NameSet(names), x);
    }
  }

  lemma FirstName(s: Sys, live: set<nat>, t: nat, h: Hash, p: DirState)
    requires DirAt(s, live, t, h, p)
    ensures |p.names| >= 1
  {
  }

  /** Both walks together, as one stretch. */
  lemma DirStretch(s: Sys, live: set<nat>, t: nat, h: Hash, p: DirState, off: nat, q1: map<nat, nat>, s1: Sys,
                   q2: map<nat, nat>, u: Sys, p2: DirState, o: nat, mark: nat, m1: nat)
    requires WellLinked(s, live) && DirAt(s, live, t, h, p) && DirBlocks(p) <= live && off <= o && mark <= m1
    requires Moved(q1, s, live, s1) && WalkMap(q1, live, Foot(p.loc), off, mark)
    requires Walking(s1, q1.Values, MapDir(q1, p), q2, u, p2, o, m1)
    ensures var q := Compose(q1, q2);
            && Along(s, live, q, u, DirBlocks(p)) && WalkMap(q, live, DirBlocks(p), off, mark) && q.Values == q2.Values
            && SameJob(q, DirJob(p), DirJob(p2)) && DirBlocks(p2) == Image(q, DirBlocks(p))
  {
    hide WellLinked, DirAt, Foot, Moved, Injective, Along, Compose, Image, WalkMap, Flat, SameFiles;
    var p1, q := MapDir(q1, p), Compose(q1, q2);
    MovedInjective(q1, s, live, s1);
    MovedLinked(q1, s, live, s1);
    AlongMoved(s, live, q1, s1);
    AlongMore(s, live, q1, s1, {}, DirBlocks(p));
    AlongFacts(s1, q1.Values, q2, u, DirBlocks(p1));
    DirImage(s, live, q1, t, h, p);
    ImageBack(q1, DirBlocks(p));
    AlongTwice(s, live, q1, s1, DirBlocks(p), q2, u, DirBlocks(p1));
    AlongFacts(s, live, q, u, DirBlocks(p));
    DirImage(s, live, q, t, h, p);
    WalkWider(q1, live, Foot(p.loc), DirBlocks(p), off, mark);
    WalkTwice(q1, q2, live, DirBlocks(p), NameSet(p1.names), off, o, mark, m1);
    DirComposed(s, live, t, h, p, q1, q2, p2);
  }

  /** Tree and list together are a step. */
  lemma DirStep(s: Sys, live: set<nat>, t: nat, h: Hash, jobs: seq<Job>, k: nat, base: nat, q1: map<nat, nat>, s1: Sys,
                q2: map<nat, nat>, u: Sys, p2: DirState, mark: nat, m1: nat)
    requires Stocked(s, live, t, h, jobs) && Swept(s, live, h, jobs, k, base) && k < |jobs| && jobs[k].DirJob?
    requires var p, off := jobs[k].dir, Off(jobs, k, base); var p1 := MapDir(q1, p);
             && Moved(q1, s, live, s1) && MapLoc(q1, p.loc) == Ordered(p.loc, off)
             && WalkMap(q1, live, Foot(p.loc), off, mark)
             && Walking(s1, q1.Values, p1, q2, u, p2, off + Nodes(p.loc), m1)
             && DirAt(u, q2.Values, t, h, p2) && InOrder(p2.names, |p2.names|, off + Nodes(p.loc))
             && AllTold(h, p2, |p2.names|)
    requires mark <= m1
    ensures Step(s, live, t, h, jobs, k, base, Compose(q1, q2), u, DirJob(p2), mark)
            && Compose(q1, q2).Values == q2.Values
  {
    hide WellLinked, DirAt, Foot, Moved, Along, Stocked, Compose, Image, WalkMap, AllTold, Off, SameJob, Walking,
         DirBlocks, InOrder;
    var p, off := jobs[k].dir, Off(jobs, k, base);
    StockedLinked(s, live, t, h, jobs);
    DirWaiting(s, live, t, h, jobs, k, base);
    DirStretch(s, live, t, h, p, off, q1, s1, q2, u, p2, off + Nodes(p.loc), mark, m1);
    OrderedMapped(q1, p.loc, off);
    WalkingLoc(s1, q1.Values, MapDir(q1, p), q2, u, p2, off + Nodes(p.loc), m1);
  }

  lemma WalkingLoc(s: Sys, live: set<nat>, p: DirState, q: map<nat, nat>, u: Sys, p': DirState, off: nat, mark: nat)
    requires Walking(s, live, p, q, u, p', off, mark)
    ensures p'.loc == p.loc && |p'.names| == |p.names|
  {
  }

  lemma ImageBack(q: map<nat, nat>, f: set<nat>)
    requires Injective(q)
    ensures forall b | b in q && q[b] in Image(q, f) :: b in f
  {
  }

  lemma WalkWider(q: map<nat, nat>, live: set<nat>, a: set<nat>, b: set<nat>, o: nat, mark: nat)
    requires WalkMap(q, live, a, o, mark) && a <= b
    ensures WalkMap(q, live, b, o, mark)
  {
  }

  /** The directory's description after both walks. */
  lemma DirComposed(s: Sys, live: set<nat>, t: nat, h: Hash, p: DirState, q1: map<nat, nat>, q2: map<nat, nat>,
                    p2: DirState)
    requires DirAt(s, live, t, h, p) && q1.Keys == live && q2.Keys == q1.Values
    requires SameDir(MapDir(q1, p), p2) && p2.names == MapNames(q2, MapDir(q1, p).names)
             && Fixes(q2, Foot(MapDir(q1, p).loc))
    ensures SameJob(Compose(q1, q2), DirJob(p), DirJob(p2))
    ensures DirBlocks(p2) == DirBlocks(MapDir(Compose(q1, q2), p))
  {
    hide Foot, Flat, Indexed, Matched, Compose;
    RolledAll(s.disk, live, p.names, p.recs);
    MapCompose(q1, q2, p.loc);
    MapFixed(q2, MapLoc(q1, p.loc));
    NamesTwice(q1, q2, p.names);
  }

  /** The first two parts of basicbtfs_defrag_directory: the tree, then the name list. */
  method DefragDirJob(v: Volume, ino: nat, off: nat, h: Hash, ghost o: Origin, ghost jobs: seq<Job>, ghost r: map<nat,
                      nat>, ghost k: nat)
    returns (ok: bool, off': nat, ghost jobs': seq<Job>, ghost r': map<nat, nat>)
    requires Sweeping(v, o, jobs, r, k) && k < |jobs| && jobs[k].DirJob? && jobs[k].dir.ino == ino
             && off == Off(jobs, k, o.base) && h == o.h
    modifies v`blocks, v`iBno, v`info, v.alloc, v.alloc.bits
    ensures ok && Sweeping(v, o, jobs', r', k + 1) && off' == Off(jobs', k + 1, o.base)
    ensures |jobs'| == |jobs| && forall i | 0 <= i < k :: jobs'[i] == jobs[i]
    ensures jobs'[k].DirJob? && jobs'[k].dir.ino == ino
  {
    hide WellLinked, HonestAll, Placed, DirAt, Foot, Moved, Injective, Along, Stocked, Swept, Through, Compose, Image,
         WalkMap, Off, SetBits, NoStraddle, Done, AllTold, NoClash, NamesClear, InOrder, Step, Walking, Repacked,
         RepackedJobs;
    ghost var s, live, mark, p, base := Snap(v), r.Values, v.alloc.unused, jobs[k].dir, o.base;
    DirWaiting(s, live, v.t, h, jobs, k, base);
    DirRoot(s, live, v.t, h, p);
    ghost var q1, q2, p2;
    ok, off', q1 := DefragDirectoryTree(v, ino, off, p.loc, p.tr, live, base);
    ghost var s1, m1, p1 := Snap(v), v.alloc.unused, MapDir(q1, p);
    TreeThenNames(s, live, v.t, h, p, q1, s1, off, mark);
    ok, off', p2, q2 := DefragNametree(v, ino, off', h, p1, q1.Values, base);
    SameLengthDir(s1, q1.Values, p1, q2, Snap(v), p2, off + Nodes(p.loc), m1);
    DirStep(s, live, v.t, h, jobs, k, base, q1, s1, q2, Snap(v), p2, mark, m1);
    ghost var q := Compose(q1, q2);
    SweepOn(o, v.t, r, s, jobs, k, q, Snap(v), DirJob(p2), mark);
    RepackedNext(o.jobs, jobs, q, k, DirJob(p2));
    EarlierSame(s, live, v.t, h, jobs, k, base, q, Snap(v), DirJob(p2), mark);
    jobs', r' := AfterJob(q, jobs, k, DirJob(p2)), Compose(r, q);
  }

  lemma DirRoot(s: Sys, live: set<nat>, t: nat, h: Hash, p: DirState)
    requires DirAt(s, live, t, h, p)
    ensures p.ino in s.iBno && s.iBno[p.ino] == p.loc.bno && IsTree(s.disk, p.loc.bno) && s.disk[p.loc.bno].node.root
    ensures Rep(s.disk, t, p.loc, p.tr) && Apart(p.loc) && Foot(p.loc) <= live && |p.names| == |p.recs| >= 1
  {
  }

  lemma SameLengthDir(s: Sys, live: set<nat>, p: DirState, q: map<nat, nat>, u: Sys, p': DirState, off: nat, mark: nat)
    requires Walking(s, live, p, q, u, p', off, mark)
    ensures |p'.names| == |p.names| && p'.ino == p.ino
  {
  }

  /** What was finished before is what it was. */
  lemma EarlierSame(s: Sys, live: set<nat>, t: nat, h: Hash, jobs: seq<Job>, k: nat, base: nat, q: map<nat, nat>,
                    u: Sys, j: Job, mark: nat)
    requires Stocked(s, live, t, h, jobs) && Swept(s, live, h, jobs, k, base) && k < |jobs|
    requires Step(s, live, t, h, jobs, k, base, q, u, j, mark)
    ensures forall i | 0 <= i < k :: AfterJob(q, jobs, k, j)[i] == jobs[i]
  {
    hide WellLinked, Along, JobAt, JobBlocks, Done, SameJob, Image, Injective, Stocked, Off;
    var g := JobBlocks(s, live, jobs[k]);
    StockedLinked(s, live, t, h, jobs);
    forall i | 0 <= i < k
      ensures AfterJob(q, jobs, k, j)[i] == jobs[i]
    {
      OffGrows(jobs, i, k, base);
      StockedApart(s, live, t, h, jobs, i, k);
      StockedJob(s, live, t, h, jobs, i);
      DoneBlocks(s, live, t, h, jobs[i], Off(jobs, i, base));
      DoneKept(s, live, q, u, g, t, h, jobs[i], Off(jobs, i, base));
    }
  }

  // ----------------------------------------------------------------- one file

  /** A file that is to be done is in the position its routine asks for. */
  lemma FileWaiting(s: Sys, live: set<nat>, t: nat, h: Hash, jobs: seq<Job>, k: nat, base: nat)
    requires Stocked(s, live, t, h, jobs) && Swept(s, live, h, jobs, k, base) && k < |jobs| && jobs[k].FileJob?
    ensures var ino, n, off := jobs[k].ino, jobs[k].n, Off(jobs, k, base);
            && ino in s.iBno && IsTable(s.disk, s.iBno[ino]) && NrClusters(ClustersOf(s, ino)) == n
            && off <= s.iBno[ino]
            && (forall c | 0 <= c < n :: off <= ClustersOf(s, ino)[c].start)
            && (s.iBno[ino] != off && off in live ==> !OwnData(s, s.iBno[ino], off))
            && base <= off && Off(jobs, k + 1, base) == off + 1 + CLUSTER_LEN * n <= Off(jobs, |jobs|, base)
  {
    hide WellLinked, Partition, NrClusters, FileBlocks;
    var ino, n, off := jobs[k].ino, jobs[k].n, Off(jobs, k, base);
    StockedLinked(s, live, t, h, jobs);
    StockedJob(s, live, t, h, jobs, k);
    NextWaits(s, live, h, jobs, k, base);
    OffNext(jobs, k, base);
    OffGrows(jobs, k + 1, |jobs|, base);
    TableOfFile(s, live, ino);
    forall c | 0 <= c < n
      ensures off <= ClustersOf(s, ino)[c].start
    {
      var a := ClustersOf(s, ino)[c].start;
      ClusterOfFile(s, live, ino, c);
      RunSetIs(a, a);
    }
  }

  lemma TableOfFile(s: Sys, live: set<nat>, ino: nat)
    requires WellLinked(s, live) && ino in s.iBno && IsTable(s.disk, s.iBno[ino])
    ensures s.iBno[ino] in FileBlocks(s, live, ino)
  {
    hide WellLinked;
    InodeLive(s, live, ino);
  }

  lemma FileStep(s: Sys, live: set<nat>, t: nat, h: Hash, jobs: seq<Job>, k: nat, base: nat, q: map<nat, nat>, u: Sys,
                 mark: nat)
    requires Stocked(s, live, t, h, jobs) && k < |jobs| && jobs[k].FileJob? && Moved(q, s, live, u)
    requires var off, n := Off(jobs, k, base), jobs[k].n; Lined(u, jobs[k].ino, off, n, n, off + 1 + CLUSTER_LEN * n)
    requires WalkMap(q, live, FileBlocks(s, live, jobs[k].ino), Off(jobs, k, base), mark)
    ensures Step(s, live, t, h, jobs, k, base, q, u, jobs[k], mark)
  {
    hide WellLinked, Moved, Along, Stocked, WalkMap, Image, NrClusters, FileBlocks, Off;
    StockedLinked(s, live, t, h, jobs);
    StockedJob(s, live, t, h, jobs, k);
    AlongMoved(s, live, q, u);
    AlongMore(s, live, q, u, {}, JobBlocks(s, live, jobs[k]));
    BlocksAlong(s, live, q, u, JobBlocks(s, live, jobs[k]), t, h, jobs[k]);
    MovedInjective(q, s, live, u);
  }

  /** One file. */
  method DefragFileJob(v: Volume, ino: nat, off: nat, ghost o: Origin, ghost jobs: seq<Job>, ghost r: map<nat, nat>,
                       ghost k: nat)
    returns (ok: bool, off': nat, ghost jobs': seq<Job>, ghost r': map<nat, nat>)
    requires Sweeping(v, o, jobs, r, k) && k < |jobs| && jobs[k].FileJob? && jobs[k].ino == ino
             && off == Off(jobs, k, o.base)
    modifies v`blocks, v`iBno, v`info, v.alloc, v.alloc.bits
    ensures ok && Sweeping(v, o, jobs', r', k + 1) && off' == Off(jobs', k + 1, o.base)
    ensures |jobs'| == |jobs| && forall i | 0 <= i < k :: jobs'[i] == jobs[i]
  {
    hide WellLinked, HonestAll, Placed, Moved, Along, Stocked, Swept, Through, Compose, WalkMap, Off, SetBits,
         NoStraddle, Step, NrClusters, FileBlocks, ReadsSame, Lined, RepackedJobs;
    ghost var s, live, mark, base := Snap(v), r.Values, v.alloc.unused, o.base;
    FileWaiting(s, live, v.t, o.h, jobs, k, base);
    ghost var q;
    ok, off', q := DefragFileTableBlock(v, ino, off, live, base);
    LinedOff(Snap(v), ino, off, jobs[k].n, off');
    FileStep(s, live, v.t, o.h, jobs, k, base, q, Snap(v), mark);
    SweepOn(o, v.t, r, s, jobs, k, q, Snap(v), jobs[k], mark);
    RepackedNext(o.jobs, jobs, q, k, jobs[k]);
    EarlierSame(s, live, v.t, o.h, jobs, k, base, q, Snap(v), jobs[k], mark);
    jobs', r' := AfterJob(q, jobs, k, jobs[k]), Compose(r, q);
  }

  lemma LinedOff(s: Sys, ino: nat, p: nat, n: nat, o: nat)
    requires Lined(s, ino, p, n, n, o)
    ensures o == p + 1 + CLUSTER_LEN * n
  {
  }
}
