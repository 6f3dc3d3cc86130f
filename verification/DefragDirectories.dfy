/** basicbtfs_defrag_directory and basicbtfs_defrag_traverse_directory: the recursion over
    directories and their entries. */
module DefragDirectories {
  import opened Entries
  import opened BTree
  import opened Blocks
  import opened Bitmap
  import opened System
  import opened DiskTree
  import opened Relocate
  import opened Defrag
  import opened DefragNode
  import opened DefragTree
  import opened NameBlocks
  import opened NamePhases
  import opened DefragDirs
  import opened DefragJobs
  import opened DefragObjects

  /** What S_ISDIR and S_ISREG say of an inode. */
  datatype Kind = Dir | Reg | Neither

  // ---------------------------------------------------- the hierarchy of names

  /** The directory ino, the inodes of its entries in the order of the tree, and what they
      are. */
  datatype Plan = Plan(ino: nat, inos: seq<nat>, items: seq<Item>)
  datatype Item = Sub(plan: Plan) | File(ino: nat) | Other

  /** What of a job does not change while it moves. */
  datatype Outline = DirOutline(ino: nat, inos: seq<nat>) | FileOutline(ino: nat)

  function Inos(es: seq<Entry>): (r: seq<nat>)
    ensures |r| == |es| && forall i | 0 <= i < |r| :: r[i] == es[i].ino
  {
    seq(|es|, i requires 0 <= i < |es| => es[i].ino)
  }

  function OutlineOf(j: Job): Outline {
    match j
    case DirJob(p) => DirOutline(p.ino, Inos(Flat(p.tr)))
    case FileJob(ino, _) => FileOutline(ino)
  }

  function Outlines(jobs: seq<Job>): (r: seq<Outline>)
    ensures |r| == |jobs| && forall i | 0 <= i < |r| :: r[i] == OutlineOf(jobs[i])
  {
    seq(|jobs|, i requires 0 <= i < |jobs| => OutlineOf(jobs[i]))
  }

  /** The objects of a hierarchy in the order in which the recursion comes to them. */
  function PlanOutline(p: Plan): seq<Outline>
    decreases p, 0
  {
    [DirOutline(p.ino, p.inos)] + ItemsOutline(p.items)
  }

  function ItemsOutline(items: seq<Item>): seq<Outline>
    decreases items, 1
  {
    if items == [] then [] else ItemOutline(items[0]) + ItemsOutline(items[1..])
  }

  function ItemOutline(i: Item): seq<Outline>
    decreases i, 0
  {
    match i case Sub(p) => PlanOutline(p) case File(ino) => [FileOutline(ino)] case Other => []
  }

  lemma {:induction false} ItemsAppend(a: seq<Item>, b: seq<Item>)
    ensures ItemsOutline(a + b) == ItemsOutline(a) + ItemsOutline(b)
  {
    if a == [] {
      assert a + b == b;
    } else {
      ItemsAppend(a[1..], b);
      assert (a + b)[0] == a[0] && (a + b)[1..] == a[1..] + b;
    }
  }

  /** The hierarchy agrees with the modes of the inodes. */
  ghost predicate PlanOk(kind: nat -> Kind, p: Plan)
    decreases p, 1
  {
    |p.items| == |p.inos| && forall i | 0 <= i < |p.items| :: ItemOk(kind, p.inos[i], p.items[i])
  }

  ghost predicate ItemOk(kind: nat -> Kind, ino: nat, it: Item)
    decreases it, 0
  {
    match it
    case Sub(q) => kind(ino) == Dir && q.ino == ino && PlanOk(kind, q)
    case File(f) => kind(ino) == Reg && f == ino
    case Other => kind(ino) == Neither
  }

  /** The objects part are jobs k, k+1, ... */
  ghost predicate Occupies(all: seq<Outline>, k: nat, part: seq<Outline>) {
    k + |part| <= |all| && all[k..k + |part|] == part
  }

  lemma OccupiesParts(all: seq<Outline>, k: nat, a: seq<Outline>, b: seq<Outline>)
    requires Occupies(all, k, a + b)
    ensures Occupies(all, k, a) && Occupies(all, k + |a|, b)
  {
    assert all[k..k + |a| + |b|][..|a|] == a && all[k..k + |a| + |b|][|a|..] == b;
  }

  lemma OccupiesOne(all: seq<Outline>, k: nat, x: Outline)
    requires Occupies(all, k, [x])
    ensures k < |all| && all[k] == x
  {
    assert all[k..k + 1][0] == x;
  }

  lemma SameOutline(r: map<nat, nat>, a: Job, b: Job)
    requires SameJob(r, a, b)
    ensures OutlineOf(b) == OutlineOf(a)
  {
    hide Flat;
    if a.DirJob? { assert Inos(Flat(a.dir.tr)) == Inos(Flat(b.dir.tr)); }
  }

  /** Outlines do not change during a run. */
  lemma OutlinesKept(v: Volume, o: Origin, jobs: seq<Job>, r: map<nat, nat>, k: nat)
    requires Sweeping(v, o, jobs, r, k)
    ensures Outlines(jobs) == Outlines(o.jobs)
  {
    hide Stocked, Swept, Steady, Off, NoStraddle, Along, SameJob;
    forall i | 0 <= i < |jobs|
      ensures OutlineOf(jobs[i]) == OutlineOf(o.jobs[i])
    {
      SameOutline(r, o.jobs[i], jobs[i]);
    }
  }

  // ------------------------------------------------------------- subtrees

  /** The subtree tc at lc is part of the tree tr at loc. */
  ghost predicate PartOf(loc: Loc, tr: Tree, lc: Loc, tc: Tree)
    decreases tr
  {
    || (lc == loc && tc == tr)
    || (|loc.kids| == |tr.kids| && exists i | 0 <= i < |tr.kids| :: PartOf(loc.kids[i], tr.kids[i], lc, tc))
  }

  lemma {:induction false} RepPart(d: Disk, t: nat, loc: Loc, tr: Tree, lc: Loc, tc: Tree)
    requires Rep(d, t, loc, tr) && PartOf(loc, tr, lc, tc)
    ensures Rep(d, t, lc, tc)
    decreases tr
  {
    if !(lc == loc && tc == tr) {
      var i :| 0 <= i < |tr.kids| && PartOf(loc.kids[i], tr.kids[i], lc, tc);
      RepPart(d, t, loc.kids[i], tr.kids[i], lc, tc);
    }
  }

  lemma {:induction false} PartKid(loc: Loc, tr: Tree, lc: Loc, tc: Tree, k: nat)
    requires PartOf(loc, tr, lc, tc) && k < |tc.kids| == |lc.kids|
    ensures PartOf(loc, tr, lc.kids[k], tc.kids[k])
    decreases tr
  {
    if lc == loc && tc == tr {
      assert PartOf(loc.kids[k], tr.kids[k], lc.kids[k], tc.kids[k]);
    } else {
      var i :| 0 <= i < |tr.kids| && PartOf(loc.kids[i], tr.kids[i], lc, tc);
      PartKid(loc.kids[i], tr.kids[i], lc, tc, k);
      assert PartOf(loc.kids[i], tr.kids[i], lc.kids[k], tc.kids[k]);
    }
  }

  lemma {:induction false} FootPart(loc: Loc, tr: Tree, lc: Loc, tc: Tree)
    requires PartOf(loc, tr, lc, tc)
    ensures lc.bno in Foot(loc)
    decreases tr
  {
    if !(lc == loc && tc == tr) {
      var i :| 0 <= i < |tr.kids| && PartOf(loc.kids[i], tr.kids[i], lc, tc);
      FootPart(loc.kids[i], tr.kids[i], lc, tc);
      FootMember(loc.kids, i);
    }
  }

  /** A node has no children or one more than keys. */
  predicate Regular(tr: Tree) { tr.kids == [] || |tr.kids| == |tr.keys| + 1 }

  /** The entries that the traversal of a node has passed when it comes to index. */
  function Passed(tr: Tree, index: nat): seq<Entry>
    requires index <= |tr.keys| && Regular(tr)
  {
    if tr.kids == [] then tr.keys[..index] else Before(tr, index)
  }

  function KidEntries(tr: Tree, index: nat): seq<Entry>
    requires index <= |tr.keys| && Regular(tr)
  {
    if tr.kids == [] then [] else Flat(tr.kids[index])
  }

  lemma PassedSteps(tr: Tree, index: nat)
    requires index <= |tr.keys| && Regular(tr)
    ensures index < |tr.keys| ==> Passed(tr, index + 1) == Passed(tr, index) + KidEntries(tr, index) + [tr.keys[index]]
    ensures exists rest ::
              Flat(tr) == Passed(tr, index) + KidEntries(tr, index) + rest && (index == |tr.keys| ==> rest == [])
                           && (index < |tr.keys| ==> rest != [] && rest[0] == tr.keys[index])
    ensures Passed(tr, 0) == []
  {
    if tr.kids == [] {
      LeafFlat(tr);
      assert tr.keys == tr.keys[..index] + [] + tr.keys[index..];
    } else {
      FlatAt(tr, index);
      if index < |tr.keys| { BeforeStep(tr, index); }
      var rest := BTree.After(tr, index);
      assert Flat(tr) == Passed(tr, index) + KidEntries(tr, index) + rest;
    }
  }

  // ------------------------------------------------------------ where it stands

  /** Entries e, e+1, ... of the directory have these inodes. */
  ghost predicate Covers(p: Plan, e: nat, es: seq<Entry>) {
    e + |es| <= |p.inos| && p.inos[e..e + |es|] == Inos(es)
  }

  lemma CoversParts(p: Plan, e: nat, a: seq<Entry>, b: seq<Entry>)
    requires Covers(p, e, a + b)
    ensures Covers(p, e, a) && Covers(p, e + |a|, b)
  {
    var n := |a| + |b|;
    var all := p.inos[e..e + n];
    assert forall i | 0 <= i < n :: all[i] == p.inos[e + i];
    assert forall i | 0 <= i < |a| :: (a + b)[i] == a[i];
    assert forall i | 0 <= i < |b| :: (a + b)[|a| + i] == b[i];
  }

  /** How many jobs n entries from e on are. */
  function Span(p: Plan, e: nat, n: nat): nat
    requires e + n <= |p.items|
  {
    |ItemsOutline(p.items[e..e + n])|
  }

  lemma SpanParts(p: Plan, e: nat, a: nat, b: nat)
    requires e + a + b <= |p.items|
    ensures ItemsOutline(p.items[e..e + a + b])
              == ItemsOutline(p.items[e..e + a]) + ItemsOutline(p.items[e + a..e + a + b])
    ensures Span(p, e, a + b) == Span(p, e, a) + Span(p, e + a, b)
  {
    assert p.items[e..e + a + b] == p.items[e..e + a] + p.items[e + a..e + a + b];
    ItemsAppend(p.items[e..e + a], p.items[e + a..e + a + b]);
  }

  lemma SpanOne(p: Plan, e: nat)
    requires e < |p.items|
    ensures ItemsOutline(p.items[e..e + 1]) == ItemOutline(p.items[e]) && Span(p, e, 0) == 0
  {
    var one := p.items[e..e + 1];
    assert one == [p.items[e]] && one[1..] == [];
    assert ItemsOutline(one) == ItemOutline(one[0]) + ItemsOutline(one[1..]);
  }

  /** What a traversing call finds: it works for directory p, job d, on the part tc of its
      tree at lc, whose entries begin at e, and its jobs begin at k. */
  ghost predicate Assigned(kind: nat -> Kind, p: Plan, o: Origin, jobs: seq<Job>, d: nat, lc: Loc, tc: Tree, e: nat,
                           k: nat) {
    && PlanOk(kind, p) && d < k <= |jobs| == |o.jobs| && jobs[d].DirJob?
    && PartOf(jobs[d].dir.loc, jobs[d].dir.tr, lc, tc)
    && Covers(p, e, Flat(tc)) && Occupies(Outlines(o.jobs), k, ItemsOutline(p.items[e..e + |Flat(tc)|]))
  }

  /** The node at hand, read off the volume. */
  lemma NodeSeen(v: Volume, o: Origin, jobs: seq<Job>, r: map<nat, nat>, k: nat, d: nat, lc: Loc, tc: Tree)
    requires Sweeping(v, o, jobs, r, k) && d < |jobs| && jobs[d].DirJob?
             && PartOf(jobs[d].dir.loc, jobs[d].dir.tr, lc, tc)
    ensures IsTree(v.blocks, lc.bno) && Holds(v.t, v.blocks[lc.bno].node, lc, tc) && 0 < lc.bno <= v.alloc.bits.Length
            && Regular(tc)
  {
    hide Swept, Through, WellLinked, HonestAll, NoStraddle, Off, Foot, PartOf, Shape, Apart, Flat, Sorted, Matched,
         SetBits;
    var p := jobs[d].dir;
    StockedJob(Snap(v), r.Values, v.t, o.h, jobs, d);
    RepPart(v.blocks, v.t, p.loc, p.tr, lc, tc);
    FootPart(p.loc, p.tr, lc, tc);
    UsedBlock(v.alloc.Used(), v.alloc.unused, v.alloc.bits.Length, r.Values, o.base, lc.bno);
    LiveBlock(Snap(v), r.Values, lc.bno);
  }

  /** A stretch b of the entries of an assignment. */
  lemma Stretch(p: Plan, all: seq<Outline>, e: nat, k: nat, whole: seq<Entry>, a: seq<Entry>, b: seq<Entry>,
                c: seq<Entry>)
    requires |p.items| == |p.inos| && Covers(p, e, whole) && whole == a + b + c
    requires Occupies(all, k, ItemsOutline(p.items[e..e + |whole|]))
    ensures Covers(p, e + |a|, b) && |a| + |b| <= |whole|
    ensures Occupies(all, k + Span(p, e, |a|), ItemsOutline(p.items[e + |a|..e + |a| + |b|]))
    ensures Span(p, e, |a| + |b|) == Span(p, e, |a|) + Span(p, e + |a|, |b|) <= Span(p, e, |whole|)
  {
    hide ItemsOutline;
    CoversParts(p, e, a + b, c);
    CoversParts(p, e, a, b);
    SpanParts(p, e, |a| + |b|, |c|);
    SpanParts(p, e, |a|, |b|);
    var i, j := p.items[e..e + |a| + |b|], p.items[e + |a| + |b|..e + |a| + |b| + |c|];
    OccupiesParts(all, k, ItemsOutline(i), ItemsOutline(j));
    OccupiesParts(all, k, ItemsOutline(p.items[e..e + |a|]), ItemsOutline(p.items[e + |a|..e + |a| + |b|]));
  }

  /** The next child is an assignment of its own. */
  lemma KidAssigned(kind: nat -> Kind, p: Plan, o: Origin, jobs: seq<Job>, d: nat, lc: Loc, tc: Tree, e: nat, k: nat,
                    index: nat, jobs': seq<Job>)
    requires Assigned(kind, p, o, jobs, d, lc, tc, e, k) && Regular(tc) && index <= |tc.keys| && tc.kids != []
             && |lc.kids| == |tc.kids|
    requires |jobs'| == |jobs| && jobs'[d] == jobs[d]
    ensures e + |Flat(tc)| <= |p.items| && |Passed(tc, index)| + |Flat(tc.kids[index])| <= |Flat(tc)|
    ensures Assigned(kind, p, o, jobs', d, lc.kids[index], tc.kids[index], e + |Passed(tc, index)|,
                     k + Span(p, e, |Passed(tc, index)|))
    ensures Span(p, e, |Passed(tc, index)| + |Flat(tc.kids[index])|)
            == Span(p, e, |Passed(tc, index)|) + Span(p, e + |Passed(tc, index)|, |Flat(tc.kids[index])|)
            <= Span(p, e, |Flat(tc)|)
  {
    hide Flat, Passed, PartOf, Covers, Occupies, ItemsOutline, ItemOk;
    PassedSteps(tc, index);
    var rest :| Flat(tc) == Passed(tc, index) + KidEntries(tc, index) + rest;
    CoversLength(p, e, Flat(tc));
    Stretch(p, Outlines(o.jobs), e, k, Flat(tc), Passed(tc, index), KidEntries(tc, index), rest);
    PartKid(jobs[d].dir.loc, jobs[d].dir.tr, lc, tc, index);
    OccupiesFits(Outlines(o.jobs), k, ItemsOutline(p.items[e..e + |Flat(tc)|]));
  }

  lemma CoversLength(p: Plan, e: nat, es: seq<Entry>)
    requires Covers(p, e, es)
    ensures e + |es| <= |p.inos|
  {
  }

  lemma OccupiesFits(all: seq<Outline>, k: nat, part: seq<Outline>)
    requires Occupies(all, k, part)
    ensures k + |part| <= |all|
  {
  }

  /** The next entry, too. */
  lemma EntryAssigned(kind: nat -> Kind, p: Plan, o: Origin, jobs: seq<Job>, d: nat, lc: Loc, tc: Tree, e: nat, k: nat,
                      index: nat)
    requires Assigned(kind, p, o, jobs, d, lc, tc, e, k) && Regular(tc) && index < |tc.keys|
    ensures e + |Flat(tc)| <= |p.items| == |p.inos|
            && |Passed(tc, index + 1)| == |Passed(tc, index)| + |KidEntries(tc, index)| + 1 <= |Flat(tc)|
    ensures var m := |Passed(tc, index)| + |KidEntries(tc, index)|;
            && tc.keys[index].ino == p.inos[e + m] && ItemOk(kind, tc.keys[index].ino, p.items[e + m])
            && Occupies(Outlines(o.jobs), k + Span(p, e, m), ItemOutline(p.items[e + m]))
            && Span(p, e, m + 1) == Span(p, e, m) + |ItemOutline(p.items[e + m])|
  {
    hide Flat, Passed, PartOf, Covers, Occupies, ItemsOutline, ItemOutline, ItemOk;
    PassedSteps(tc, index);
    var rest :| Flat(tc) == Passed(tc, index) + KidEntries(tc, index) + rest && rest != [] && rest[0] == tc.keys[index];
    var before := Passed(tc, index) + KidEntries(tc, index);
    assert rest == [rest[0]] + rest[1..];
    assert Flat(tc) == before + [rest[0]] + rest[1..];
    CoversLength(p, e, Flat(tc));
    Stretch(p, Outlines(o.jobs), e, k, Flat(tc), before, [rest[0]], rest[1..]);
    CoversOne(p, e + |before|, rest[0]);
    SpanOne(p, e + |before|);
    SpanParts(p, e, |before|, 1);
  }

  lemma CoversOne(p: Plan, e: nat, x: Entry)
    requires Covers(p, e, [x])
    ensures e < |p.inos| && p.inos[e] == x.ino
  {
    assert p.inos[e..e + 1][0] == Inos([x])[0];
  }

  lemma PassedAll(tr: Tree)
    requires Regular(tr)
    ensures Passed(tr, |tr.keys|) + KidEntries(tr, |tr.keys|) == Flat(tr)
  {
    hide Flat, Passed;
    PassedSteps(tr, |tr.keys|);
    var n := |tr.keys|;
    var rest :| Flat(tr) == Passed(tr, n) + KidEntries(tr, n) + rest && rest == [];
    assert Flat(tr) == Passed(tr, n) + KidEntries(tr, n);
  }

  // ---------------------------------------------------------------- recursion

  /** Jobs before k are as they were. */
  ghost predicate SameBefore(a: seq<Job>, b: seq<Job>, k: nat) {
    |a| == |b| && forall i | 0 <= i < k && i < |a| :: b[i] == a[i]
  }

  /** What the traversal does with one entry. */
  method DefragEntry(v: Volume, ino: nat, off: nat, h: Hash, kind: nat -> Kind, ghost p: Plan, ghost e: nat,
                     ghost o: Origin, ghost jobs: seq<Job>, ghost r: map<nat, nat>, ghost k: nat)
    returns (ok: bool, off': nat, ghost jobs': seq<Job>, ghost r': map<nat, nat>)
    requires e < |p.items| && ItemOk(kind, ino, p.items[e]) && Occupies(Outlines(o.jobs), k, ItemOutline(p.items[e]))
             && h == o.h
    requires Sweeping(v, o, jobs, r, k) && off == Off(jobs, k, o.base)
    modifies v`blocks, v`iBno, v`info, v.alloc, v.alloc.bits
    ensures ok && Sweeping(v, o, jobs', r', k + |ItemOutline(p.items[e])|)
            && off' == Off(jobs', k + |ItemOutline(p.items[e])|, o.base)
    ensures SameBefore(jobs, jobs', k)
    decreases p, 0, 0
  {
    hide Sweeping, Off, Occupies, PlanOk, Outlines;
    ok, off', jobs', r' := true, off, jobs, r;
    if kind(ino) == Dir {
      ok, off', jobs', r' := DefragDirectory(v, ino, off, h, kind, p.items[e].plan, o, jobs, r, k);
    } else if kind(ino) == Reg {
      FileAt(v, o, jobs, r, k, ino);
      ok, off', jobs', r' := DefragFileJob(v, ino, off, o, jobs, r, k);
    }
  }

  lemma FileAt(v: Volume, o: Origin, jobs: seq<Job>, r: map<nat, nat>, k: nat, ino: nat)
    requires Sweeping(v, o, jobs, r, k) && Occupies(Outlines(o.jobs), k, [FileOutline(ino)])
    ensures k < |jobs| && jobs[k].FileJob? && jobs[k].ino == ino
  {
    hide Sweeping, Occupies;
    OutlinesKept(v, o, jobs, r, k);
    OccupiesOne(Outlines(o.jobs), k, FileOutline(ino));
    assert OutlineOf(jobs[k]) == FileOutline(ino);
  }

  lemma DirectoryAt(v: Volume, o: Origin, jobs: seq<Job>, r: map<nat, nat>, k: nat, p: Plan)
    requires Sweeping(v, o, jobs, r, k) && Occupies(Outlines(o.jobs), k, PlanOutline(p))
    ensures k < |jobs| == |o.jobs| && jobs[k].DirJob? && jobs[k].dir.ino == p.ino
            && Outlines(o.jobs)[k] == DirOutline(p.ino, p.inos)
    ensures Occupies(Outlines(o.jobs), k + 1, ItemsOutline(p.items))
  {
    hide Sweeping, Occupies, ItemsOutline, Flat, Inos;
    OutlinesKept(v, o, jobs, r, k);
    assert |Outlines(jobs)| == |jobs|;
    OccupiesParts(Outlines(o.jobs), k, [DirOutline(p.ino, p.inos)], ItemsOutline(p.items));
    OccupiesOne(Outlines(o.jobs), k, DirOutline(p.ino, p.inos));
    assert OutlineOf(jobs[k]) == DirOutline(p.ino, p.inos);
  }

  /** basicbtfs_defrag_directory */
  method DefragDirectory(v: Volume, ino: nat, off: nat, h: Hash, kind: nat -> Kind, ghost p: Plan, ghost o: Origin,
                         ghost jobs: seq<Job>, ghost r: map<nat, nat>, ghost k: nat)
    returns (ok: bool, off': nat, ghost jobs': seq<Job>, ghost r': map<nat, nat>)
    requires Sweeping(v, o, jobs, r, k) && off == Off(jobs, k, o.base) && h == o.h
    requires PlanOk(kind, p) && ino == p.ino && Occupies(Outlines(o.jobs), k, PlanOutline(p))
    modifies v`blocks, v`iBno, v`info, v.alloc, v.alloc.bits
    ensures ok && Sweeping(v, o, jobs', r', k + |PlanOutline(p)|) && off' == Off(jobs', k + |PlanOutline(p)|, o.base)
    ensures SameBefore(jobs, jobs', k)
    decreases p, 2, 0
  {
    hide Sweeping, Off, Occupies, Outlines, Flat, Inos, ItemsOutline, Covers, Shape, ItemOk;
    DirectoryAt(v, o, jobs, r, k, p);
    ghost var jobs1, r1;
    ok, off', jobs1, r1 := DefragDirJob(v, ino, off, h, o, jobs, r, k);
    if !ok {
      return false, off', jobs1, r1;
    }
    ghost var q := jobs1[k].dir;
    WholeTree(kind, v, o, jobs1, r1, k + 1, k, p);
    ok, off', jobs', r' := DefragTraverseDirectory(v, v.iBno[ino], off', h, kind, p, k, q.loc, q.tr, q.ht, 0, o, jobs1,
                                                   r1, k + 1);
  }

  /** The whole tree of the directory just placed is an assignment. */
  lemma WholeTree(kind: nat -> Kind, v: Volume, o: Origin, jobs: seq<Job>, r: map<nat, nat>, k: nat, d: nat, p: Plan)
    requires Sweeping(v, o, jobs, r, k) && d < k <= |jobs| == |o.jobs| && jobs[d].DirJob? && jobs[d].dir.ino == p.ino
    requires Outlines(o.jobs)[d] == DirOutline(p.ino, p.inos) && PlanOk(kind, p)
             && Occupies(Outlines(o.jobs), k, ItemsOutline(p.items))
    ensures var q := jobs[d].dir;
            && Assigned(kind, p, o, jobs, d, q.loc, q.tr, 0, k) && p.ino in v.iBno && v.iBno[p.ino] == q.loc.bno
            && Shape(v.t, q.tr, q.ht) && |Flat(q.tr)| == |p.items|
            && Span(p, 0, |Flat(q.tr)|) == |ItemsOutline(p.items)|
  {
    hide Swept, Through, WellLinked, HonestAll, NoStraddle, Off, Foot, Apart, Flat, Sorted, Matched, SetBits, Occupies,
         ItemsOutline, Rep, ItemOk, Shape;
    OutlinesKept(v, o, jobs, r, k);
    StockedJob(Snap(v), r.Values, v.t, o.h, jobs, d);
    assert OutlineOf(jobs[d]) == Outlines(jobs)[d];
    assert p.items[0..|p.items|] == p.items && p.inos[0..|p.inos|] == p.inos;
  }

  /** basicbtfs_defrag_traverse_directory, on the part tc at lc of the tree of directory p. */
  method DefragTraverseDirectory(v: Volume, bno: nat, off: nat, h: Hash, kind: nat -> Kind, ghost p: Plan, ghost d: nat,
                                 ghost lc: Loc, ghost tc: Tree, ghost hc: nat, ghost e: nat, ghost o: Origin,
                                 ghost jobs: seq<Job>, ghost r: map<nat, nat>, ghost k: nat)
    returns (ok: bool, off': nat, ghost jobs': seq<Job>, ghost r': map<nat, nat>)
    requires Sweeping(v, o, jobs, r, k) && off == Off(jobs, k, o.base) && h == o.h
    requires Assigned(kind, p, o, jobs, d, lc, tc, e, k) && bno == lc.bno && Shape(v.t, tc, hc)
    modifies v`blocks, v`iBno, v`info, v.alloc, v.alloc.bits
    ensures e + |Flat(tc)| <= |p.items|
    ensures ok && Sweeping(v, o, jobs', r', k + Span(p, e, |Flat(tc)|))
            && off' == Off(jobs', k + Span(p, e, |Flat(tc)|), o.base)
    ensures SameBefore(jobs, jobs', k)
    decreases p, 1, hc
  {
    hide Sweeping, Off, Occupies, Outlines, Flat, Inos, ItemsOutline, ItemOutline, Covers, ItemOk, PartOf, Passed,
         Holds, Span, Shape, Assigned, PlanOk;
    AssignedFits(kind, p, o, jobs, d, lc, tc, e, k);
    NodeSeen(v, o, jobs, r, k, d, lc, tc);
    if bno == 0 || bno > v.alloc.bits.Length {
      return false, off, jobs, r;
    }
    ok, off', jobs', r' := true, off, jobs, r;
    var index := 0;
    ghost var m: nat := 0;
    TraverseStart(p, e, tc);
    while index < v.blocks[bno].node.nrOfKeys
      invariant index <= |tc.keys| && m == |Passed(tc, index)| && ok && e + |Flat(tc)| <= |p.items| && m <= |Flat(tc)|
      invariant IsTree(v.blocks, bno) && Holds(v.t, v.blocks[bno].node, lc, tc)
      invariant k + Span(p, e, m) <= |jobs'| && Sweeping(v, o, jobs', r', k + Span(p, e, m))
                && off' == Off(jobs', k + Span(p, e, m), o.base)
      invariant SameBefore(jobs, jobs', k)
      decreases |tc.keys| - index
    {
      NodeFields(v.t, v.blocks[bno].node, lc, tc, index, hc);
      EntryAssigned(kind, p, o, jobs, d, lc, tc, e, k, index);
      if !v.blocks[bno].node.leaf {
        KidAssigned(kind, p, o, jobs, d, lc, tc, e, k, index, jobs');
        ok, off', jobs', r' := DefragTraverseDirectory(v, v.blocks[bno].node.children[index], off', h, kind, p, d,
                                                       lc.kids[index], tc.kids[index],
                                                       hc - 1, e + m, o, jobs', r', k + Span(p, e, m));
        m := m + |Flat(tc.kids[index])|;
        SweepingFits(v, o, jobs', r', k + Span(p, e, m));
        NodeSeen(v, o, jobs', r', k + Span(p, e, m), d, lc, tc);
      }
      NodeFields(v.t, v.blocks[bno].node, lc, tc, index, hc);
      ok, off', jobs', r' := DefragEntry(v, v.blocks[bno].node.entries[index].ino, off', h, kind, p, e + m, o, jobs',
                                         r', k + Span(p, e, m));
      m := m + 1;
      index := index + 1;
      SweepingFits(v, o, jobs', r', k + Span(p, e, m));
      NodeSeen(v, o, jobs', r', k + Span(p, e, m), d, lc, tc);
    }
    NodeFields(v.t, v.blocks[bno].node, lc, tc, index, hc);
    PassedAll(tc);
    if !v.blocks[bno].node.leaf {
      KidAssigned(kind, p, o, jobs, d, lc, tc, e, k, index, jobs');
      ok, off', jobs', r' := DefragTraverseDirectory(v, v.blocks[bno].node.children[index], off', h, kind, p, d,
                                                     lc.kids[index], tc.kids[index],
                                                     hc - 1, e + m, o, jobs', r', k + Span(p, e, m));
    }
  }

  lemma AssignedFits(kind: nat -> Kind, p: Plan, o: Origin, jobs: seq<Job>, d: nat, lc: Loc, tc: Tree, e: nat, k: nat)
    requires Assigned(kind, p, o, jobs, d, lc, tc, e, k)
    ensures e + |Flat(tc)| <= |p.items| && d < k <= |jobs| && jobs[d].DirJob?
            && PartOf(jobs[d].dir.loc, jobs[d].dir.tr, lc, tc)
  {
    hide Flat, PartOf, Occupies, ItemsOutline, ItemOk;
    CoversLength(p, e, Flat(tc));
  }

  lemma SweepingFits(v: Volume, o: Origin, jobs: seq<Job>, r: map<nat, nat>, k: nat)
    requires Sweeping(v, o, jobs, r, k)
    ensures k <= |jobs|
  {
  }

  lemma TraverseStart(p: Plan, e: nat, tc: Tree)
    requires Regular(tc) && e + |Flat(tc)| <= |p.items|
    ensures Passed(tc, 0) == [] && Span(p, e, 0) == 0
  {
    hide Flat, Passed;
    PassedSteps(tc, 0);
    assert p.items[e..e] == [];
  }

  /** What a node on the volume says of its tree. */
  lemma NodeFields(t: nat, n: BNode, lc: Loc, tc: Tree, index: nat, hc: nat)
    requires Holds(t, n, lc, tc) && index <= |tc.keys| && Shape(t, tc, hc)
    ensures n.nrOfKeys == |tc.keys| && (n.leaf <==> tc.kids == []) && |lc.kids| == |tc.kids|
            && |n.entries| >= n.nrOfKeys && |n.children| > n.nrOfKeys
    ensures index < |tc.keys| ==> n.entries[index] == tc.keys[index]
    ensures tc.kids != [] ==>
              index < |tc.kids| && n.children[index] == lc.kids[index].bno && 0 < hc && Shape(t, tc.kids[index], hc - 1)
  {
    assert index < |tc.keys| ==> n.entries[..n.nrOfKeys][index] == n.entries[index];
  }
}
