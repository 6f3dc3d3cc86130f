/** A whole volume as a list of jobs: directories and files in the order in which the
    defragmenter comes to them. After each job, what is done lies without gaps from the first
    data block on, and what is still to do lies behind it. */
module DefragJobs {
  import opened BTree
  import opened Blocks
  import opened Bitmap
  import opened System
  import opened DiskTree
  import opened Relocate
  import opened Defrag
  import opened DefragNode
  import opened DefragTree
  import opened DefragTable
  import opened DefragFileWhole
  import opened Wording
  import opened NamePhases
  import opened NameFill
  import opened DefragDirs
  import opened DefragNames

  datatype Job = DirJob(dir: DirState) | FileJob(ino: nat, n: nat)

  /** The object of a job is on the volume: a directory, or a file with n clusters. */
  ghost predicate JobAt(s: Sys, live: set<nat>, t: nat, h: Hash, j: Job) {
    match j
    case DirJob(p) => DirAt(s, live, t, h, p)
    case FileJob(ino, n) => ino in s.iBno && IsTable(s.disk, s.iBno[ino]) && NrClusters(ClustersOf(s, ino)) == n
  }

  ghost function JobBlocks(s: Sys, live: set<nat>, j: Job): set<nat> {
    match j
    case DirJob(p) => DirBlocks(p)
    case FileJob(ino, _) => FileBlocks(s, live, ino)
  }

  /** How many blocks it takes. */
  function JobSize(j: Job): (n: nat)
    ensures 1 <= n
  {
    match j
    case DirJob(p) => Nodes(p.loc) + |p.names|
    case FileJob(_, n) => 1 + CLUSTER_LEN * n
  }

  function MapJob(r: map<nat, nat>, j: Job): Job {
    match j
    case DirJob(p) => DirJob(MapDir(r, p))
    case FileJob(_, _) => j
  }

  /** The same object at its new place: a directory has the same entries but for the places
      in them, and the same live records in the same order. */
  ghost predicate SameJob(r: map<nat, nat>, a: Job, b: Job) {
    match a
    case DirJob(p) =>
      b.DirJob? && SameDir(MapDir(r, p), b.dir) && b.dir.names == MapNames(r, p.names)
    case FileJob(_, _) => b == a
  }

  /** The object lies without gaps from off on; a directory's entries address its records. */
  ghost predicate Done(s: Sys, h: Hash, j: Job, off: nat) {
    match j
    case DirJob(p) =>
      && p.loc == Ordered(p.loc, off)
      && InOrder(p.names, |p.names|, off + Nodes(p.loc))
      && AllTold(h, p, |p.names|)
    case FileJob(ino, n) => Lined(s, ino, off, n, n, off + 1 + CLUSTER_LEN * n)
  }

  /** Moving it to off on will not meet one of the cases in which the code goes wrong. */
  ghost predicate Pending(s: Sys, live: set<nat>, j: Job, off: nat) {
    match j
    case DirJob(p) => NoClash(p.loc, off) && NamesClear(p.names, 0, off + Nodes(p.loc))
    case FileJob(ino, _) => ino in s.iBno && (s.iBno[ino] != off && off in live ==> !OwnData(s, s.iBno[ino], off))
  }

  // ---------------------------------------------------------- under one stretch

  lemma JobAlong(s: Sys, live: set<nat>, r: map<nat, nat>, u: Sys, g: set<nat>, t: nat, h: Hash, j: Job)
    requires WellLinked(s, live) && Along(s, live, r, u, g) && JobAt(s, live, t, h, j)
    requires j.DirJob? ==> JobBlocks(s, live, j) !! g
    ensures JobAt(u, r.Values, t, h, MapJob(r, j))
  {
    hide WellLinked, Along, DirAt, DirBlocks, NrClusters;
    match j
    case DirJob(p) => DirAlong(s, live, r, u, g, t, h, p);
    case FileJob(ino, n) => FileJobAlong(s, live, r, u, g, ino);
  }

  lemma FileJobAlong(s: Sys, live: set<nat>, r: map<nat, nat>, u: Sys, g: set<nat>, ino: nat)
    requires WellLinked(s, live) && Along(s, live, r, u, g) && ino in s.iBno && IsTable(s.disk, s.iBno[ino])
    ensures ino in u.iBno && s.iBno[ino] in r && u.iBno[ino] == r[s.iBno[ino]] && IsTable(u.disk, u.iBno[ino])
    ensures var cs, cs' := ClustersOf(s, ino), ClustersOf(u, ino);
            && NrClusters(cs') == NrClusters(cs) && |cs'| == |cs|
            && forall c | 0 <= c < NrClusters(cs) ::
                 cs'[c].len == CLUSTER_LEN && cs[c].start in r && cs'[c].start == r[cs[c].start]
  {
    hide WellLinked, Retold, Moved, NrClusters;
    var s' :| Retold(s, s', g) && Moved(r, s', live, u);
    RetoldLinked(s, live, s', g);
    RetoldInodes(s, s', g);
    RetoldAt(s, s', g, s.iBno[ino]);
    MovedClusters(r, s', live, u, ino);
  }

  lemma OfFileAlong(s: Sys, live: set<nat>, r: map<nat, nat>, u: Sys, g: set<nat>, ino: nat, x: nat)
    requires WellLinked(s, live) && Along(s, live, r, u, g) && x in live
    ensures x in r && (OfFile(u, ino, r[x]) <==> OfFile(s, ino, x))
    ensures IsData(u.disk, r[x]) <==> IsData(s.disk, x)
  {
    hide WellLinked, Retold, Moved, OfFile, Renamed;
    var s' :| Retold(s, s', g) && Moved(r, s', live, u);
    RetoldLinked(s, live, s', g);
    OfFileRetold(s, s', g, ino, x);
    RetoldAt(s, s', g, x);
    MovedInjective(r, s', live, u);
    MovedAt(r, s', live, u, x);
    RenamedData(r, s'.disk[x], u.disk[r[x]]);
    if OfFile(u, ino, r[x]) { FileImageAt(r, s', live, u, ino, x); }
    if OfFile(s', ino, x) { OfFileMoved(r, s', live, u, ino, x); }
  }

  lemma OfFileRetold(s: Sys, u: Sys, g: set<nat>, ino: nat, x: nat)
    requires Retold(s, u, g)
    ensures OfFile(u, ino, x) <==> OfFile(s, ino, x)
  {
    hide Retold;
    RetoldInodes(s, u, g);
    RetoldAt(s, u, g, x);
  }

  lemma OfFileMoved(r: map<nat, nat>, s: Sys, live: set<nat>, u: Sys, ino: nat, x: nat)
    requires WellLinked(s, live) && Moved(r, s, live, u) && x in live && OfFile(s, ino, x)
    ensures x in r && OfFile(u, ino, r[x])
  {
    hide WellLinked, Moved, Renamed;
    MovedInjective(r, s, live, u);
    MovedAt(r, s, live, u, x);
    RenamedData(r, s.disk[x], u.disk[r[x]]);
    if IsData(s.disk, x) && x in s.info { MovedInfo(r, s, live, u, x); }
    if ino in s.iBno { MovedInode(r, s, live, u, ino); }
  }

  /** The blocks of an object are the images of its blocks. */
  lemma BlocksAlong(s: Sys, live: set<nat>, r: map<nat, nat>, u: Sys, g: set<nat>, t: nat, h: Hash, j: Job)
    requires WellLinked(s, live) && Along(s, live, r, u, g) && JobAt(s, live, t, h, j)
    ensures JobBlocks(u, r.Values, MapJob(r, j)) == Image(r, JobBlocks(s, live, j)) && JobBlocks(s, live, j) <= live
  {
    hide WellLinked, Along, Injective, OfFile, NrClusters;
    AlongFacts(s, live, r, u, g);
    match j {
      case DirJob(p) => DirImage(s, live, r, t, h, p);
      case FileJob(ino, _) =>
        var a, b := FileBlocks(u, r.Values, ino), Image(r, FileBlocks(s, live, ino));
        forall y | y in a
          ensures y in b
        {
          var x: nat :| x in r && r[x] == y;
          OfFileAlong(s, live, r, u, g, ino, x);
          assert x in FileBlocks(s, live, ino);
        }
        forall y | y in b
          ensures y in a
        {
          var x: nat :| x in FileBlocks(s, live, ino) && x in r && r[x] == y;
          OfFileAlong(s, live, r, u, g, ino, x);
        }
    }
  }

  lemma DirImage(s: Sys, live: set<nat>, r: map<nat, nat>, t: nat, h: Hash, p: DirState)
    requires DirAt(s, live, t, h, p) && r.Keys == live
    ensures DirBlocks(MapDir(r, p)) == Image(r, DirBlocks(p)) && DirBlocks(p) <= live
  {
    hide Foot, Flat, Indexed, Matched;
    RolledAll(s.disk, live, p.names, p.recs);
    MapFoot(r, p.loc);
    var a, b := NameSet(MapNames(r, p.names)), Image(r, NameSet(p.names));
    forall y | y in a
      ensures y in b
    {
      var i :| 0 <= i < |p.names| && MapNames(r, p.names)[i] == y;
      assert p.names[i] in NameSet(p.names) && r[p.names[i]] == y;
    }
    forall y | y in b
      ensures y in a
    {
      var x: nat :| x in NameSet(p.names) && x in r && r[x] == y;
      var i :| 0 <= i < |p.names| && p.names[i] == x;
      assert MapNames(r, p.names)[i] == y;
    }
  }

  // ------------------------------------------------------ what lies where

  /** A finished object takes exactly its places. */
  lemma DoneBlocks(s: Sys, live: set<nat>, t: nat, h: Hash, j: Job, off: nat)
    requires WellLinked(s, live) && JobAt(s, live, t, h, j) && Done(s, h, j, off)
    ensures IsInterval(JobBlocks(s, live, j), off, off + JobSize(j))
  {
    hide WellLinked, DirAt, Foot, AllTold, NrClusters, OfFile;
    match j {
      case DirJob(p) =>
        OrderedFoot(p.loc, off);
        var from := off + Nodes(p.loc);
        forall x
          ensures x in NameSet(p.names) <==> from <= x < from + |p.names|
        {
          if from <= x < from + |p.names| { assert p.names[x - from] == x; }
        }
      case FileJob(ino, n) => FileInterval(s, live, ino, n, off);
    }
  }

  lemma FileInterval(s: Sys, live: set<nat>, ino: nat, n: nat, off: nat)
    requires WellLinked(s, live) && Lined(s, ino, off, n, n, off + 1 + CLUSTER_LEN * n)
    ensures IsInterval(FileBlocks(s, live, ino), off, off + 1 + CLUSTER_LEN * n)
  {
    hide WellLinked, NrClusters;
    InodeLive(s, live, ino);
    var bs := FileBlocks(s, live, ino);
    forall x
      ensures x in bs <==> off <= x < off + 1 + CLUSTER_LEN * n
    {
      if x in bs && x != off { OfCluster(s, live, ino, n, off, x); }
      if off < x < off + 1 + CLUSTER_LEN * n {
        var c := (x - off - 1) / CLUSTER_LEN;
        ClusterOfFile(s, live, ino, c);
        RunSetIs(x, ClustersOf(s, ino)[c].start);
      }
    }
  }

  /** A data block of the file lies in one of its clusters. */
  lemma OfCluster(s: Sys, live: set<nat>, ino: nat, n: nat, off: nat, x: nat)
    requires WellLinked(s, live) && Lined(s, ino, off, n, n, off + 1 + CLUSTER_LEN * n) && x in live
             && OfFile(s, ino, x) && x != off
    ensures off < x < off + 1 + CLUSTER_LEN * n
  {
    hide WellLinked, NrClusters;
    LiveTable(s, live, x);
    var c := s.info[x].cluster;
    assert c < n;
  }

  /** Blocks that stay or go past the mark, and are not among those placed, stay clear of
      the place. */
  lemma KeptClear(q: map<nat, nat>, live: set<nat>, placed: set<nat>, o: nat, o': nat, mark: nat, bs: set<nat>)
    requires WalkMap(q, live, placed, o, mark) && Injective(q) && placed <= live && bs <= live && placed !! bs
             && Floor(bs, o)
    requires IsInterval(Image(q, placed), o, o') && o' <= mark
    ensures Floor(Image(q, bs), o')
  {
    ImageApart(q, placed, bs);
    forall y | y in Image(q, bs)
      ensures o' <= y
    {
      var x: nat :| x in bs && x in q && q[x] == y;
      assert x !in placed && y !in Image(q, placed);
    }
  }

  lemma ImageApart(q: map<nat, nat>, a: set<nat>, b: set<nat>)
    requires Injective(q) && a !! b
    ensures Image(q, a) !! Image(q, b)
  {
    forall y | y in Image(q, a)
      ensures y !in Image(q, b)
    {
      var x: nat :| x in a && x in q && q[x] == y;
    }
  }

  // --------------------------------------------------- finished, unfinished

  /** What is finished lies below the place of the next job and stays. */
  lemma DoneKept(s: Sys, live: set<nat>, q: map<nat, nat>, u: Sys, g: set<nat>, t: nat, h: Hash, j: Job, off: nat)
    requires WellLinked(s, live) && Along(s, live, q, u, g) && JobAt(s, live, t, h, j) && Done(s, h, j, off)
    requires forall x | x in JobBlocks(s, live, j) :: x in q && q[x] == x
    ensures MapJob(q, j) == j && Done(u, h, j, off)
  {
    hide WellLinked, Along, DirAt, Foot, AllTold, NrClusters, MapLoc;
    match j
    case DirJob(p) =>
      MapFixed(q, p.loc);
      assert forall i | 0 <= i < |p.names| :: p.names[i] in NameSet(p.names);
      assert MapNames(q, p.names) == p.names;
    case FileJob(ino, n) =>
      FileJobAlong(s, live, q, u, g, ino);
      InodeLive(s, live, ino);
      assert s.iBno[ino] in FileBlocks(s, live, ino);
      forall c | 0 <= c < n
        ensures q[ClustersOf(s, ino)[c].start] == ClustersOf(s, ino)[c].start
      {
        ClusterOfFile(s, live, ino, c);
        RunSetIs(ClustersOf(s, ino)[c].start, ClustersOf(s, ino)[c].start);
      }
  }

  /** The way of a job that is still to be done stays clear: blocks only go past all places. */
  lemma PendingKept(s: Sys, live: set<nat>, q: map<nat, nat>, u: Sys, g: set<nat>, t: nat, h: Hash, j: Job, off: nat,
                    mark: nat)
    requires WellLinked(s, live) && Along(s, live, q, u, g) && JobAt(s, live, t, h, j) && Pending(s, live, j, off)
    requires off + JobSize(j) <= mark && Past(q, JobBlocks(s, live, j), mark)
    ensures Pending(u, q.Values, MapJob(q, j), off)
  {
    hide WellLinked, Along, DirAt, Foot, NrClusters, MapLoc, NoClash;
    match j
    case DirJob(p) =>
      NoClashMoved(q, p.loc, off, mark);
      OrderedMapped(q, p.loc, off);
      forall i | 0 < i < |p.names|
        ensures MapNames(q, p.names)[i] != off + Nodes(p.loc) + (i - 1)
      {
        assert p.names[i] in NameSet(p.names);
      }
    case FileJob(ino, n) => FilePending(s, live, q, u, g, ino, off, mark);
  }

  lemma FilePending(s: Sys, live: set<nat>, q: map<nat, nat>, u: Sys, g: set<nat>, ino: nat, off: nat, mark: nat)
    requires WellLinked(s, live) && Along(s, live, q, u, g) && ino in s.iBno && IsTable(s.disk, s.iBno[ino])
             && off < mark
    requires s.iBno[ino] != off && off in live ==> !OwnData(s, s.iBno[ino], off)
    requires Past(q, FileBlocks(s, live, ino), mark)
    ensures ino in u.iBno && (u.iBno[ino] != off && off in q.Values ==> !OwnData(u, u.iBno[ino], off))
  {
    hide WellLinked, Along, Injective, Past;
    AlongFacts(s, live, q, u, g);
    FileJobAlong(s, live, q, u, g, ino);
    InodeLive(s, live, ino);
    InodeLive(u, q.Values, ino);
    if off in q.Values && OwnData(u, u.iBno[ino], off) {
      var x: nat :| x in q && q[x] == off;
      OfFileAlong(s, live, q, u, g, ino, x);
      assert x in FileBlocks(s, live, ino);
      PastAt(q, FileBlocks(s, live, ino), mark, x);
    }
  }

  lemma PastAt(q: map<nat, nat>, f: set<nat>, mark: nat, x: nat)
    requires Past(q, f, mark) && x in f && x in q
    ensures q[x] == x || mark <= q[x]
  {
  }

  // -------------------------------------------------------------- the volume

  /** Where job k begins. */
  function Off(jobs: seq<Job>, k: nat, base: nat): (o: nat)
    requires k <= |jobs|
    ensures base + k <= o
  {
    if k == 0 then base else Off(jobs, k - 1, base) + JobSize(jobs[k - 1])
  }

  lemma {:induction false} OffGrows(jobs: seq<Job>, j: nat, k: nat, base: nat)
    requires j <= k <= |jobs|
    ensures Off(jobs, j, base) <= Off(jobs, k, base)
    ensures j < k ==> Off(jobs, j, base) + JobSize(jobs[j]) <= Off(jobs, k, base)
    decreases k - j
  {
    if j < k { OffGrows(jobs, j, k - 1, base); }
  }

  /** Every live block belongs to exactly one job. */
  ghost predicate Partition(s: Sys, live: set<nat>, jobs: seq<Job>) {
    && (forall i, j | 0 <= i < j < |jobs| :: JobBlocks(s, live, jobs[i]) !! JobBlocks(s, live, jobs[j]))
    && (forall x | x in live :: Covered(s, live, jobs, x))
    && (forall j | 0 <= j < |jobs| :: JobBlocks(s, live, jobs[j]) <= live)
  }

  ghost predicate Covered(s: Sys, live: set<nat>, jobs: seq<Job>, x: nat) {
    exists j | 0 <= j < |jobs| :: x in JobBlocks(s, live, jobs[j])
  }

  /** The start of a run: volume, jobs, and the first data block. */
  datatype Origin = Origin(s: Sys, live: set<nat>, jobs: seq<Job>, base: nat, h: Hash)

  /** The objects on the volume: all there, apart, and together everything. */
  ghost predicate Stocked(s: Sys, live: set<nat>, t: nat, h: Hash, jobs: seq<Job>) {
    && WellLinked(s, live) && Partition(s, live, jobs)
    && forall j | 0 <= j < |jobs| :: JobAt(s, live, t, h, jobs[j])
  }

  /** The first k jobs are finished, the others lie behind them and can be done. */
  ghost predicate Swept(s: Sys, live: set<nat>, h: Hash, jobs: seq<Job>, k: nat, base: nat) {
    && k <= |jobs|
    && (forall j | 0 <= j < k :: Done(s, h, jobs[j], Off(jobs, j, base)))
    && (forall j | k <= j < |jobs| :: Waiting(s, live, jobs, k, j, base))
  }

  ghost predicate Waiting(s: Sys, live: set<nat>, jobs: seq<Job>, k: nat, j: nat, base: nat)
    requires k <= |jobs| && j < |jobs|
  {
    Pending(s, live, jobs[j], Off(jobs, j, base)) && Floor(JobBlocks(s, live, jobs[j]), Off(jobs, k, base))
  }

  function MapJobs(r: map<nat, nat>, jobs: seq<Job>): (m: seq<Job>)
    ensures |m| == |jobs| && forall j | 0 <= j < |m| :: m[j] == MapJob(r, jobs[j])
  {
    seq(|jobs|, j requires 0 <= j < |jobs| => MapJob(r, jobs[j]))
  }

  lemma MapSize(r: map<nat, nat>, j: Job)
    ensures JobSize(MapJob(r, j)) == JobSize(j)
  {
    if j.DirJob? { OrderedMapped(r, j.dir.loc, 0); }
  }

  ghost predicate SameSizes(a: seq<Job>, b: seq<Job>) {
    |a| == |b| && forall j | 0 <= j < |a| :: JobSize(a[j]) == JobSize(b[j])
  }

  lemma {:induction false} OffSame(a: seq<Job>, b: seq<Job>, k: nat, base: nat)
    requires SameSizes(a, b) && k <= |a|
    ensures Off(a, k, base) == Off(b, k, base)
  {
    if k > 0 { OffSame(a, b, k - 1, base); }
  }

  // -------------------------------------------------------------- one step

  /** What a job's routine achieves: job k is finished as j, everything else has stayed or
      gone past the mark. */
  ghost predicate Step(s: Sys, live: set<nat>, t: nat, h: Hash, jobs: seq<Job>, k: nat, base: nat, q: map<nat, nat>,
                       u: Sys, j: Job, mark: nat)
    requires k < |jobs|
  {
    && Along(s, live, q, u, JobBlocks(s, live, jobs[k])) && SameJob(q, jobs[k], j)
    && WalkMap(q, live, JobBlocks(s, live, jobs[k]), Off(jobs, k, base), mark)
    && JobAt(u, q.Values, t, h, j) && Done(u, h, j, Off(jobs, k, base)) && JobSize(j) == JobSize(jobs[k])
    && JobBlocks(u, q.Values, j) == Image(q, JobBlocks(s, live, jobs[k]))
  }

  /** The jobs after step k. */
  function AfterJob(q: map<nat, nat>, jobs: seq<Job>, k: nat, j: Job): (r: seq<Job>)
    requires k < |jobs|
    ensures |r| == |jobs| && forall i | 0 <= i < |r| :: r[i] == if i == k then j else MapJob(q, jobs[i])
  {
    MapJobs(q, jobs)[k := j]
  }

  lemma AfterSizes(q: map<nat, nat>, jobs: seq<Job>, k: nat, j: Job)
    requires k < |jobs| && JobSize(j) == JobSize(jobs[k])
    ensures SameSizes(jobs, AfterJob(q, jobs, k, j))
  {
    forall i | 0 <= i < |jobs|
      ensures JobSize(AfterJob(q, jobs, k, j)[i]) == JobSize(jobs[i])
    {
      MapSize(q, jobs[i]);
    }
  }

  lemma AfterBlocks(s: Sys, live: set<nat>, t: nat, h: Hash, jobs: seq<Job>, k: nat, base: nat, q: map<nat, nat>,
                    u: Sys, j: Job, mark: nat, i: nat)
    requires Stocked(s, live, t, h, jobs) && k < |jobs| && i < |jobs|
             && Step(s, live, t, h, jobs, k, base, q, u, j, mark)
    ensures JobBlocks(u, q.Values, AfterJob(q, jobs, k, j)[i]) == Image(q, JobBlocks(s, live, jobs[i]))
            && JobBlocks(s, live, jobs[i]) <= live
    ensures JobAt(u, q.Values, t, h, AfterJob(q, jobs, k, j)[i])
  {
    hide WellLinked, Along, JobAt, JobBlocks, Done, SameJob, Image;
    assert JobAt(s, live, t, h, jobs[i]);
    BlocksAlong(s, live, q, u, JobBlocks(s, live, jobs[k]), t, h, jobs[i]);
    if i != k {
      assert JobBlocks(s, live, jobs[i]) !! JobBlocks(s, live, jobs[k]);
      JobAlong(s, live, q, u, JobBlocks(s, live, jobs[k]), t, h, jobs[i]);
    }
  }

  lemma StockedAfter(s: Sys, live: set<nat>, t: nat, h: Hash, jobs: seq<Job>, k: nat, base: nat, q: map<nat, nat>,
                     u: Sys, j: Job, mark: nat)
    requires Stocked(s, live, t, h, jobs) && k < |jobs| && Step(s, live, t, h, jobs, k, base, q, u, j, mark)
    ensures Stocked(u, q.Values, t, h, AfterJob(q, jobs, k, j))
  {
    hide WellLinked, Along, JobAt, JobBlocks, Done, SameJob, Image, Injective, Stocked;
    var js := AfterJob(q, jobs, k, j);
    StockedLinked(s, live, t, h, jobs);
    AlongFacts(s, live, q, u, JobBlocks(s, live, jobs[k]));
    forall i | 0 <= i < |jobs|
      ensures JobAt(u, q.Values, t, h, js[i]) && JobBlocks(u, q.Values, js[i]) <= q.Values
    {
      AfterBlocks(s, live, t, h, jobs, k, base, q, u, j, mark, i);
      ImageIn(q, JobBlocks(s, live, jobs[i]));
    }
    forall a, b | 0 <= a < b < |jobs|
      ensures JobBlocks(u, q.Values, js[a]) !! JobBlocks(u, q.Values, js[b])
    {
      AfterBlocks(s, live, t, h, jobs, k, base, q, u, j, mark, a);
      AfterBlocks(s, live, t, h, jobs, k, base, q, u, j, mark, b);
      StockedApart(s, live, t, h, jobs, a, b);
      ImageApart(q, JobBlocks(s, live, jobs[a]), JobBlocks(s, live, jobs[b]));
    }
    forall y | y in q.Values
      ensures Covered(u, q.Values, js, y)
    {
      var x: nat :| x in q && q[x] == y;
      var i := StockedCovers(s, live, t, h, jobs, x);
      AfterBlocks(s, live, t, h, jobs, k, base, q, u, j, mark, i);
      ImageHas(q, JobBlocks(s, live, jobs[i]), x);
    }
    StockedIs(u, q.Values, t, h, js);
  }

  lemma StockedLinked(s: Sys, live: set<nat>, t: nat, h: Hash, jobs: seq<Job>)
    requires Stocked(s, live, t, h, jobs)
    ensures WellLinked(s, live)
  {
  }

  lemma StockedApart(s: Sys, live: set<nat>, t: nat, h: Hash, jobs: seq<Job>, a: nat, b: nat)
    requires Stocked(s, live, t, h, jobs) && a < |jobs| && b < |jobs| && a != b
    ensures JobBlocks(s, live, jobs[a]) !! JobBlocks(s, live, jobs[b])
  {
  }

  lemma StockedCovers(s: Sys, live: set<nat>, t: nat, h: Hash, jobs: seq<Job>, x: nat) returns (i: nat)
    requires Stocked(s, live, t, h, jobs) && x in live
    ensures i < |jobs| && x in JobBlocks(s, live, jobs[i])
  {
    assert Covered(s, live, jobs, x);
    i :| 0 <= i < |jobs| && x in JobBlocks(s, live, jobs[i]);
  }

  lemma StockedIs(s: Sys, live: set<nat>, t: nat, h: Hash, jobs: seq<Job>)
    requires WellLinked(s, live)
    requires forall i, j | 0 <= i < j < |jobs| :: JobBlocks(s, live, jobs[i]) !! JobBlocks(s, live, jobs[j])
    requires forall x | x in live :: Covered(s, live, jobs, x)
    requires forall j | 0 <= j < |jobs| :: JobBlocks(s, live, jobs[j]) <= live && JobAt(s, live, t, h, jobs[j])
    ensures Stocked(s, live, t, h, jobs)
  {
  }

  lemma ImageIn(q: map<nat, nat>, f: set<nat>)
    ensures Image(q, f) <= q.Values
  {
  }

  lemma ImageHas(q: map<nat, nat>, f: set<nat>, x: nat)
    requires x in f && x in q
    ensures q[x] in Image(q, f)
  {
  }

  lemma WaitingNext(s: Sys, live: set<nat>, t: nat, h: Hash, jobs: seq<Job>, k: nat, base: nat, q: map<nat, nat>,
                    u: Sys, j: Job, mark: nat, i: nat)
    requires Stocked(s, live, t, h, jobs) && Swept(s, live, h, jobs, k, base) && k < i < |jobs|
    requires Step(s, live, t, h, jobs, k, base, q, u, j, mark) && Off(jobs, |jobs|, base) <= mark
    ensures Waiting(u, q.Values, AfterJob(q, jobs, k, j), k + 1, i, base)
  {
    hide WellLinked, Along, JobAt, JobBlocks, Done, SameJob, Image, Injective, Stocked, Pending, Off, WalkMap;
    var js, g := AfterJob(q, jobs, k, j), JobBlocks(s, live, jobs[k]);
    StockedLinked(s, live, t, h, jobs);
    AlongFacts(s, live, q, u, g);
    AfterSizes(q, jobs, k, j);
    OffSame(jobs, js, i, base);
    OffSame(jobs, js, k + 1, base);
    OffNext(jobs, k, base);
    OffGrows(jobs, i, |jobs|, base);
    OffGrows(jobs, k + 1, |jobs|, base);
    StockedApart(s, live, t, h, jobs, k, i);
    AfterBlocks(s, live, t, h, jobs, k, base, q, u, j, mark, i);
    AfterBlocks(s, live, t, h, jobs, k, base, q, u, j, mark, k);
    StockedJob(s, live, t, h, jobs, i);
    OffNext(jobs, i, base);
    assert Waiting(s, live, jobs, k, i, base);
    PastFromWalk(q, live, g, Off(jobs, k, base), mark, JobBlocks(s, live, jobs[i]));
    PendingKept(s, live, q, u, g, t, h, jobs[i], Off(jobs, i, base), mark);
    DoneBlocks(u, q.Values, t, h, j, Off(jobs, k, base));
    KeptClear(q, live, g, Off(jobs, k, base), Off(jobs, k + 1, base), mark, JobBlocks(s, live, jobs[i]));
  }

  lemma OffNext(jobs: seq<Job>, k: nat, base: nat)
    requires k < |jobs|
    ensures Off(jobs, k + 1, base) == Off(jobs, k, base) + JobSize(jobs[k])
  {
  }

  lemma StockedJob(s: Sys, live: set<nat>, t: nat, h: Hash, jobs: seq<Job>, i: nat)
    requires Stocked(s, live, t, h, jobs) && i < |jobs|
    ensures JobAt(s, live, t, h, jobs[i]) && JobBlocks(s, live, jobs[i]) <= live
  {
  }

  lemma PastFromWalk(q: map<nat, nat>, live: set<nat>, placed: set<nat>, o: nat, mark: nat, bs: set<nat>)
    requires WalkMap(q, live, placed, o, mark) && placed !! bs
    ensures Past(q, bs, mark)
  {
  }

  lemma DoneStays(s: Sys, live: set<nat>, t: nat, h: Hash, jobs: seq<Job>, k: nat, base: nat, q: map<nat, nat>, u: Sys,
                  j: Job, mark: nat, i: nat)
    requires Stocked(s, live, t, h, jobs) && Swept(s, live, h, jobs, k, base) && i < k < |jobs|
    requires Step(s, live, t, h, jobs, k, base, q, u, j, mark)
    ensures Done(u, h, AfterJob(q, jobs, k, j)[i], Off(AfterJob(q, jobs, k, j), i, base))
  {
    hide WellLinked, Along, JobAt, JobBlocks, Done, SameJob, Image, Injective, Stocked, Pending, Off;
    var js, g, off := AfterJob(q, jobs, k, j), JobBlocks(s, live, jobs[k]), Off(jobs, i, base);
    StockedLinked(s, live, t, h, jobs);
    AfterSizes(q, jobs, k, j);
    OffSame(jobs, js, i, base);
    OffGrows(jobs, i, k, base);
    StockedApart(s, live, t, h, jobs, i, k);
    StockedJob(s, live, t, h, jobs, i);
    DoneBlocks(s, live, t, h, jobs[i], off);
    DoneKept(s, live, q, u, g, t, h, jobs[i], off);
  }

  /** One job more is finished. */
  lemma SweptAfter(s: Sys, live: set<nat>, t: nat, h: Hash, jobs: seq<Job>, k: nat, base: nat, q: map<nat, nat>, u: Sys,
                   j: Job, mark: nat)
    requires Stocked(s, live, t, h, jobs) && Swept(s, live, h, jobs, k, base) && k < |jobs|
    requires Step(s, live, t, h, jobs, k, base, q, u, j, mark) && Off(jobs, |jobs|, base) <= mark
    ensures Swept(u, q.Values, h, AfterJob(q, jobs, k, j), k + 1, base)
  {
    hide WellLinked, Along, JobAt, JobBlocks, Done, SameJob, Image, Injective, Stocked, Waiting, Off;
    var js := AfterJob(q, jobs, k, j);
    AfterSizes(q, jobs, k, j);
    OffSame(jobs, js, k, base);
    forall i | 0 <= i < k
      ensures Done(u, h, js[i], Off(js, i, base))
    {
      DoneStays(s, live, t, h, jobs, k, base, q, u, j, mark, i);
    }
    var next := k + 1;
    forall i | next <= i < |js|
      ensures Waiting(u, q.Values, js, next, i, base)
    {
      WaitingNext(s, live, t, h, jobs, k, base, q, u, j, mark, i);
    }
  }

  // ---------------------------------------------------------------- history

  /** What the run so far has made of the volume it began with. */
  ghost predicate Through(o: Origin, t: nat, r: map<nat, nat>, u: Sys, jobs: seq<Job>) {
    && Stocked(o.s, o.live, t, o.h, o.jobs) && Along(o.s, o.live, r, u, o.live)
    && |jobs| == |o.jobs| && forall j | 0 <= j < |jobs| :: SameJob(r, o.jobs[j], jobs[j])
  }

  lemma SameJobTwice(s: Sys, live: set<nat>, t: nat, h: Hash, r: map<nat, nat>, q: map<nat, nat>, a: Job, b: Job,
                     c: Job)
    requires JobAt(s, live, t, h, a) && r.Keys == live && q.Keys == r.Values && SameJob(r, a, b) && SameJob(q, b, c)
    ensures SameJob(Compose(r, q), a, c)
  {
    hide Foot, Flat, Indexed, Matched, Compose, SameFiles;
    if a.DirJob? {
      RolledAll(s.disk, live, a.dir.names, a.dir.recs);
      MapCompose(r, q, a.dir.loc);
      NamesTwice(r, q, a.dir.names);
      SameFilesTwice(Flat(a.dir.tr), Flat(b.dir.tr), Flat(c.dir.tr));
    }
  }

  lemma SameJobMap(q: map<nat, nat>, b: Job)
    ensures SameJob(q, b, MapJob(q, b))
  {
    hide Flat;
    if b.DirJob? { SameFilesSelf(Flat(b.dir.tr)); }
  }

  lemma ThroughAfter(o: Origin, t: nat, r: map<nat, nat>, s: Sys, jobs: seq<Job>, k: nat, q: map<nat, nat>, u: Sys,
                     j: Job, mark: nat)
    requires Through(o, t, r, s, jobs) && Stocked(s, r.Values, t, o.h, jobs) && k < |jobs|
    requires Step(s, r.Values, t, o.h, jobs, k, o.base, q, u, j, mark)
    ensures Through(o, t, Compose(r, q), u, AfterJob(q, jobs, k, j)) && Compose(r, q).Values == q.Values
  {
    hide WellLinked, Along, JobAt, JobBlocks, Done, SameJob, Image, Injective, Stocked, Compose, WalkMap;
    var js, g := AfterJob(q, jobs, k, j), JobBlocks(s, r.Values, jobs[k]);
    StockedLinked(o.s, o.live, t, o.h, o.jobs);
    AlongFacts(o.s, o.live, r, s, o.live);
    AlongFacts(s, r.Values, q, u, g);
    AlongTwice(o.s, o.live, r, s, o.live, q, u, g);
    forall i | 0 <= i < |js|
      ensures SameJob(Compose(r, q), o.jobs[i], js[i])
    {
      SameJobMap(q, jobs[i]);
      StockedJob(o.s, o.live, t, o.h, o.jobs, i);
      SameJobTwice(o.s, o.live, t, o.h, r, q, o.jobs[i], jobs[i], js[i]);
    }
  }

  /** A directory that is done has its name list squeezed and filled up, one that is not has the
      records it had. */
  ghost predicate RepackedJob(a: Job, b: Job, done: bool) {
    a.DirJob? ==>
      b.DirJob? && if done then Repacked(a.dir.recs, b.dir.recs) else b.dir.recs == a.dir.recs
  }

  ghost predicate RepackedJobs(a: seq<Job>, b: seq<Job>, k: nat) {
    |a| == |b| && forall j | 0 <= j < |a| :: RepackedJob(a[j], b[j], j < k)
  }

  lemma RepackedNext(a: seq<Job>, jobs: seq<Job>, q: map<nat, nat>, k: nat, j: Job)
    requires RepackedJobs(a, jobs, k) && k < |jobs| && RepackedJob(jobs[k], j, true)
    ensures RepackedJobs(a, AfterJob(q, jobs, k, j), k + 1)
  {
    hide Repacked;
    forall i | 0 <= i < |a|
      ensures RepackedJob(a[i], AfterJob(q, jobs, k, j)[i], i < k + 1)
    {
      assert RepackedJob(a[i], jobs[i], i < k);
    }
  }

  /** The state between jobs. */
  ghost predicate Sweeping(v: Volume, o: Origin, jobs: seq<Job>, r: map<nat, nat>, k: nat)
    reads v, v.alloc, v.alloc.bits
  {
    && k <= |jobs| && Steady(v, r.Values, o.base) && 0 < o.base
    && Through(o, v.t, r, Snap(v), jobs) && Stocked(Snap(v), r.Values, v.t, o.h, jobs)
    && Swept(Snap(v), r.Values, o.h, jobs, k, o.base) && NoStraddle(Snap(v), r.Values, Off(jobs, k, o.base))
    && RepackedJobs(o.jobs, jobs, k)
    && Off(jobs, |jobs|, o.base) <= v.alloc.unused
    && v.alloc.unused + (1 + CLUSTER_LEN) * (Off(jobs, |jobs|, o.base) - Off(jobs, k, o.base)) <= v.alloc.bits.Length
  }

  /** A step leads from one such state to the next. */
  lemma SweepOn(o: Origin, t: nat, r: map<nat, nat>, s: Sys, jobs: seq<Job>, k: nat, q: map<nat, nat>, u: Sys, j: Job,
                mark: nat)
    requires Through(o, t, r, s, jobs) && Stocked(s, r.Values, t, o.h, jobs) && k < |jobs|
    requires Swept(s, r.Values, o.h, jobs, k, o.base) && Off(jobs, |jobs|, o.base) <= mark
    requires Step(s, r.Values, t, o.h, jobs, k, o.base, q, u, j, mark)
    ensures var js := AfterJob(q, jobs, k, j);
            && Through(o, t, Compose(r, q), u, js) && Compose(r, q).Values == q.Values
            && Stocked(u, q.Values, t, o.h, js) && Swept(u, q.Values, o.h, js, k + 1, o.base)
            && Off(js, |js|, o.base) == Off(jobs, |jobs|, o.base)
            && Off(js, k + 1, o.base) == Off(jobs, k, o.base) + JobSize(jobs[k])
  {
    hide Through, Stocked, Swept, Step, Off, Compose;
    var js := AfterJob(q, jobs, k, j);
    ThroughAfter(o, t, r, s, jobs, k, q, u, j, mark);
    StockedAfter(s, r.Values, t, o.h, jobs, k, o.base, q, u, j, mark);
    SweptAfter(s, r.Values, t, o.h, jobs, k, o.base, q, u, j, mark);
    StepSize(s, r.Values, t, o.h, jobs, k, o.base, q, u, j, mark);
    AfterSizes(q, jobs, k, j);
    OffSame(jobs, js, |jobs|, o.base);
    OffSame(jobs, js, k + 1, o.base);
    OffNext(jobs, k, o.base);
  }

  lemma StepSize(s: Sys, live: set<nat>, t: nat, h: Hash, jobs: seq<Job>, k: nat, base: nat, q: map<nat, nat>, u: Sys,
                 j: Job, mark: nat)
    requires k < |jobs| && Step(s, live, t, h, jobs, k, base, q, u, j, mark)
    ensures JobSize(j) == JobSize(jobs[k])
  {
  }
}
