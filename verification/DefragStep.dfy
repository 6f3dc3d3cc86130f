/** One step of the defragmenter: a tree node goes to the wanted place and whatever was
    there goes elsewhere. The source copies both blocks first and repairs the references
    of the node before those of the evicted block; when that order is harmless, the result
    is the renaming one gets by evicting first and moving then. */
module DefragStep {
  import opened Blocks
  import opened System
  import opened Relocate

  /** The node from a to b, the block at b to c. */
  function Swap(live: set<nat>, a: nat, b: nat, c: nat): map<nat, nat> {
    map x | x in live :: if x == a then b else if x == b then c else x
  }

  /** The node from a to b, the cluster at b to c. */
  function SwapRun(live: set<nat>, a: nat, b: nat, c: nat): map<nat, nat> {
    map x | x in live :: if x == a then b else if b <= x < b + CLUSTER_LEN then c + (x - b) else x
  }

  /** All child slots holding b get the value c (the loop before the two moves). */
  function ReplaceAll(s: seq<nat>, n: nat, b: nat, c: nat): (r: seq<nat>)
    requires n <= |s|
    ensures |r| == |s| && forall i | 0 <= i < |s| :: r[i] == if i < n && s[i] == b then c else s[i]
  {
    if n == 0 then s else ReplaceAll(s, n - 1, b, c)[n - 1 := if s[n - 1] == b then c else s[n - 1]]
  }

  // ------------------------------------------------- the source's own order

  /** The moved node, its own reference to the evicted block already redirected. */
  function Redirected(n: BNode, b: nat, c: nat): BNode {
    if n.nrOfKeys < |n.children| then n.(children := ReplaceAll(n.children, n.nrOfKeys + 1, b, c)) else n
  }

  function Touches(n: BNode, b: nat): bool {
    n.nrOfKeys < |n.children| && b in n.children[..n.nrOfKeys + 1]
  }

  function CopyBoth(s: Sys, a: nat, b: nat, c: nat): Sys
    requires a in s.disk && b in s.disk
  {
    Put(Put(s, c, s.disk[b]), b, s.disk[a])
  }

  /** Both copies, with the redirection between a node and its child. */
  function CopyTrees(s: Sys, a: nat, b: nat, c: nat): Sys
    requires IsTree(s.disk, a) && IsTree(s.disk, b)
  {
    var n, o := s.disk[a].node, s.disk[b].node;
    Put(Put(s, c, TreeBlock(if Touches(n, b) then o.(parent := b) else o)), b, TreeBlock(Redirected(n, b, c)))
  }

  /** Tree over tree (the first case of the switch). */
  function TreeOverTree(s: Sys, a: nat, b: nat, c: nat): Sys
    requires IsTree(s.disk, a) && IsTree(s.disk, b)
  {
    var s1 := CopyTrees(s, a, b, c);
    var s2 := TreePatch(s1, s1.disk[b].node, a, b);
    if IsTree(s2.disk, c) then TreePatch(s2, s2.disk[c].node, b, c) else s2
  }

  function TreeOverName(s: Sys, a: nat, b: nat, c: nat): Sys
    requires IsTree(s.disk, a) && IsName(s.disk, b)
  {
    var x := s.disk[b];
    NamePatch(TreePatch(CopyBoth(s, a, b, c), s.disk[a].node, a, b), x.first, x.prev, x.next, c)
  }

  function TreeOverTable(s: Sys, a: nat, b: nat, c: nat): Sys
    requires IsTree(s.disk, a) && IsTable(s.disk, b)
  {
    TablePatch(TreePatch(CopyBoth(s, a, b, c), s.disk[a].node, a, b), s.disk[b].ino, c)
  }

  /** basicbtfs_defrag_move_file_block, the first block read from the copy at c. */
  function DataPatchFrom(s: Sys, b: nat, c: nat, run: nat): Sys
    requires b in s.info && s.info[b].ino in s.iBno && IsTable(s.disk, s.iBno[s.info[b].ino])
    requires s.info[b].cluster < |s.disk[s.iBno[s.info[b].ino]].clusters|
  {
    var u := DataPatch(s, b, run);
    if c in s.disk && s.iBno[s.info[b].ino] != run then Put(u, run, s.disk[c]) else u
  }

  // ------------------------------------------------------------- congruence

  /** Only the live blocks, the inodes and the reverse map of data count. */
  lemma MovedCongruent(r: map<nat, nat>, s: Sys, live: set<nat>, u: Sys, w: Sys)
    requires Moved(r, s, live, u) && w.iBno == u.iBno
    requires forall y | y in r.Values && y in u.disk :: y in w.disk && w.disk[y] == u.disk[y]
    requires forall y | y in r.Values && y in u.info :: y in w.info && w.info[y] == u.info[y]
    ensures Moved(r, s, live, w)
  {
    hide Renamed, Injective;
  }

  /** Evict b to the free block c, then move a to b. */
  lemma EvictThenMove(s: Sys, live: set<nat>, a: nat, b: nat, c: nat, e: map<nat, nat>, u: Sys)
    requires WellLinked(s, live) && a in live && IsTree(s.disk, a) && b in live && a != b && c != 0
    requires Moved(e, s, live, u) && a in e && e[a] == a && b !in e.Values
    ensures IsTree(u.disk, a)
    ensures Moved(Compose(e, MoveOne(e.Values, a, b)), s, live, TreePatch(Put(u, b, u.disk[a]), u.disk[a].node, a, b))
  {
    hide Renamed, Moved, WellLinked, TreePatch;
    LiveBlock(s, live, b);
    MovedLinked(e, s, live, u);
    MovedAt(e, s, live, u, a);
    RenamedData(e, s.disk[a], u.disk[a]);
    TreeMoved(u, e.Values, a, b);
    MovedTwice(e, MoveOne(e.Values, a, b), s, live, u, TreePatch(Put(u, b, u.disk[a]), u.disk[a].node, a, b));
  }

  lemma SwapIsCompose(live: set<nat>, a: nat, b: nat, c: nat)
    requires a in live && b in live && a != b && c !in live
    ensures var e := MoveOne(live, b, c);
            && Compose(e, MoveOne(e.Values, a, b)) == Swap(live, a, b, c)
            && b !in e.Values && e[a] == a
            && Swap(live, a, b, c).Values == live - {a} + {c}
  {
    var e := MoveOne(live, b, c);
    var p, q := Compose(e, MoveOne(e.Values, a, b)), Swap(live, a, b, c);
    assert p.Keys == live == q.Keys;
    assert forall x | x in live :: p[x] == q[x];
    forall y | y in live - {a} + {c}
      ensures y in q.Values
    {
      if y == c { assert q[b] == c; } else if y == b { assert q[a] == b; } else { assert q[y] == y; }
    }
  }

  // --------------------------------------------------------- tree over name

  lemma TreeOverNameMoved(s: Sys, live: set<nat>, a: nat, b: nat, c: nat)
    requires WellLinked(s, live) && a in live && IsTree(s.disk, a) && b in live && IsName(s.disk, b) && c !in live
             && c != 0
    ensures Moved(Swap(live, a, b, c), s, live, TreeOverName(s, a, b, c))
  {
    hide WellLinked, Moved, TreePatch, NamePatch, TreeOverName;
    var x := s.disk[b];
    var u := NamePatch(Put(s, c, x), x.first, x.prev, x.next, c);
    NameMoved(s, live, b, c);
    SwapIsCompose(live, a, b, c);
    EvictThenMove(s, live, a, b, c, MoveOne(live, b, c), u);
    var w := TreePatch(Put(u, b, u.disk[a]), u.disk[a].node, a, b);
    NameCommutes(s, live, a, b, c);
    MovedCongruent(Swap(live, a, b, c), s, live, w, TreeOverName(s, a, b, c));
  }

  lemma NameCommutes(s: Sys, live: set<nat>, a: nat, b: nat, c: nat)
    requires WellLinked(s, live) && a in live && IsTree(s.disk, a) && b in live && IsName(s.disk, b) && c !in live
             && c != 0
    ensures var x := s.disk[b]; var u := NamePatch(Put(s, c, x), x.first, x.prev, x.next, c);
            && IsTree(u.disk, a)
            && var w, v := TreePatch(Put(u, b, u.disk[a]), u.disk[a].node, a, b), TreeOverName(s, a, b, c);
               && v.iBno == w.iBno && v.info == w.info
               && forall y | y in live - {a} + {c} && y in w.disk :: y in v.disk && v.disk[y] == w.disk[y]
  {
    var x := s.disk[b];
    var u := NamePatch(Put(s, c, x), x.first, x.prev, x.next, c);
    LiveBlock(s, live, a);
    LiveBlock(s, live, b);
    var w, v := TreePatch(Put(u, b, u.disk[a]), u.disk[a].node, a, b), TreeOverName(s, a, b, c);
    forall y | y in live - {a} + {c} && y in w.disk
      ensures y in v.disk && v.disk[y] == w.disk[y]
    {
      NameCommutesAt(s, live, a, b, c, y);
    }
  }

  lemma NameCommutesAt(s: Sys, live: set<nat>, a: nat, b: nat, c: nat, y: nat)
    requires WellLinked(s, live) && a in live && IsTree(s.disk, a) && b in live && IsName(s.disk, b) && c !in live
             && c != 0
    requires y in live - {a} + {c}
    ensures var x := s.disk[b]; var u := NamePatch(Put(s, c, x), x.first, x.prev, x.next, c);
            && IsTree(u.disk, a)
            && var w, v := TreePatch(Put(u, b, u.disk[a]), u.disk[a].node, a, b), TreeOverName(s, a, b, c);
               y in v.disk && y in w.disk && v.disk[y] == w.disk[y]
  {
    hide WellLinked, TreePatch, NamePatch, PatchTreeBlock, PatchNameBlock, Kids;
    LiveBlock(s, live, a);
    LiveBlock(s, live, b);
    var n, x := s.disk[a].node, s.disk[b];
    var s1, s2 := Put(s, c, x), TreePatch(CopyBoth(s, a, b, c), n, a, b);
    var u := NamePatch(s1, x.first, x.prev, x.next, c);
    NamePatchAt(s1, x.first, x.prev, x.next, c, a);
    NameBlockTree(s.disk[a], a, x.first, RootOf(s1, x.prev), x.prev, x.next, c);
    if y != c { LiveBlock(s, live, y); }
    var x0, k := if y == b then s.disk[a] else s1.disk[y], if y == b then a else y;
    NamePatchAt(s1, x.first, x.prev, x.next, c, k);
    TreePatchAt(Put(u, b, u.disk[a]), u.disk[a].node, a, b, y);
    TreePatchAt(CopyBoth(s, a, b, c), n, a, b, y);
    NamePatchAt(s2, x.first, x.prev, x.next, c, y);
    NameThenNode(x0, k, y, n, u.disk[a].node, x.first, RootOf(s1, x.prev), RootOf(s2, x.prev), x.prev, x.next, c, a, b);
  }

  lemma NameBlockTree(x: Block, y: nat, first: bool, rb: nat, prev: nat, next: nat, c: nat)
    requires x.TreeBlock?
    ensures PatchNameBlock(x, y, first, rb, prev, next, c)
            == TreeBlock(if first && y == rb then x.node.(treeName := c) else x.node)
  {
  }

  /** The two repairs of one block, in either order. */
  lemma NameThenNode(x: Block, y: nat, y': nat, n: BNode, n': BNode, first: bool, rb: nat, rb': nat, prev: nat,
                     next: nat, c: nat, a: nat, b: nat)
    requires x.TreeBlock? && first ==> (y == rb <==> y' == rb')
    requires !x.TreeBlock? ==> y == y'
    requires n' == n || n' == n.(treeName := c)
    ensures PatchTreeBlock(PatchNameBlock(x, y, first, rb, prev, next, c), y', n', a, b)
            == PatchNameBlock(PatchTreeBlock(x, y', n, a, b), y', first, rb', prev, next, c)
  {
    hide PatchNode;
    if x.TreeBlock? {
      NodeNameApart(x.node, y', n, a, b, c);
    }
  }

  /** The name pointer of a node and what a node move rewrites do not meet. */
  lemma NodeNameApart(x: BNode, y: nat, n: BNode, a: nat, b: nat, k: nat)
    ensures PatchNode(x.(treeName := k), y, n, a, b) == PatchNode(x, y, n, a, b).(treeName := k)
    ensures PatchNode(x, y, n.(treeName := k), a, b) == PatchNode(x, y, n, a, b)
    ensures PatchNode(x.(treeName := k), y, n.(treeName := k), a, b) == PatchNode(x, y, n, a, b).(treeName := k)
  {
  }

  // -------------------------------------------------------- tree over table

  lemma TreeOverTableMoved(s: Sys, live: set<nat>, a: nat, b: nat, c: nat)
    requires WellLinked(s, live) && a in live && IsTree(s.disk, a) && b in live && IsTable(s.disk, b) && c !in live
             && c != 0
    ensures Moved(Swap(live, a, b, c), s, live, TreeOverTable(s, a, b, c))
  {
    hide WellLinked, Moved, TreePatch, TreeOverTable;
    var u := TablePatch(Put(s, c, s.disk[b]), s.disk[b].ino, c);
    TableMoved(s, live, b, c);
    SwapIsCompose(live, a, b, c);
    EvictThenMove(s, live, a, b, c, MoveOne(live, b, c), u);
    var w := TreePatch(Put(u, b, u.disk[a]), u.disk[a].node, a, b);
    TableCommutes(s, live, a, b, c);
    MovedCongruent(Swap(live, a, b, c), s, live, w, TreeOverTable(s, a, b, c));
  }

  lemma TableCommutes(s: Sys, live: set<nat>, a: nat, b: nat, c: nat)
    requires WellLinked(s, live) && a in live && IsTree(s.disk, a) && b in live && IsTable(s.disk, b) && c !in live
             && c != 0
    ensures var u := TablePatch(Put(s, c, s.disk[b]), s.disk[b].ino, c);
            && IsTree(u.disk, a)
            && var w, v := TreePatch(Put(u, b, u.disk[a]), u.disk[a].node, a, b), TreeOverTable(s, a, b, c);
               v.iBno == w.iBno && v.info == w.info && v.disk == w.disk
  {
    hide WellLinked, PatchNode;
    LiveBlock(s, live, a);
    TableInode(s, live, b);
    var u := TablePatch(Put(s, c, s.disk[b]), s.disk[b].ino, c);
    var w, v := TreePatch(Put(u, b, u.disk[a]), u.disk[a].node, a, b), TreeOverTable(s, a, b, c);
    assert v.disk.Keys == w.disk.Keys;
  }

  lemma TableInode(s: Sys, live: set<nat>, b: nat)
    requires WellLinked(s, live) && b in live && IsTable(s.disk, b)
    ensures s.disk[b].ino in s.iBno && s.iBno[s.disk[b].ino] == b
  {
    assert BlockOk(s, live, b);
  }

  // --------------------------------------------------------- tree over data

  /** Tree over data: the whole cluster that starts at b goes to run; c only holds the copy
      of its first block in between. */
  function TreeOverData(s: Sys, a: nat, b: nat, c: nat, run: nat): Sys
    requires IsTree(s.disk, a) && b in s.disk
  {
    var s2 := TreePatch(CopyBoth(s, a, b, c), s.disk[a].node, a, b);
    if b in s2.info && s2.info[b].ino in s2.iBno && IsTable(s2.disk, s2.iBno[s2.info[b].ino])
      && s2.info[b].cluster < |s2.disk[s2.iBno[s2.info[b].ino]].clusters|
    then DataPatchFrom(s2, b, c, run) else s2
  }

  lemma SwapRunIsCompose(s: Sys, live: set<nat>, a: nat, b: nat, run: nat)
    requires WellLinked(s, live) && a in live && IsTree(s.disk, a) && FirstOfCluster(s, live, b) && RunSet(run) !! live
    ensures var e := MoveRun(live, b, run);
            && Compose(e, MoveOne(e.Values, a, b)) == SwapRun(live, a, b, run)
            && b !in e.Values && e[a] == a
  {
    hide WellLinked, FirstOfCluster;
    ClusterFacts(s, live, b);
    ClusterRun(s, live, b, a);
    RunMaps(live, a, b, run);
  }

  lemma RunMaps(live: set<nat>, a: nat, b: nat, run: nat)
    requires a in live && b in live && !InRun(a, b) && RunSet(run) !! live
    ensures var e := MoveRun(live, b, run);
            && Compose(e, MoveOne(e.Values, a, b)) == SwapRun(live, a, b, run)
            && b !in e.Values && e[a] == a
  {
    var e := MoveRun(live, b, run);
    forall x | x in e
      ensures e[x] != b && (e[x] == a <==> x == a)
    {
      if InRun(x, b) { assert e[x] in RunSet(run); }
    }
    var p, q := Compose(e, MoveOne(e.Values, a, b)), SwapRun(live, a, b, run);
    assert p.Keys == live == q.Keys;
    assert forall x | x in live :: p[x] == q[x];
  }

  lemma TreeOverDataMoved(s: Sys, live: set<nat>, a: nat, b: nat, c: nat, run: nat)
    requires WellLinked(s, live) && a in live && IsTree(s.disk, a) && FirstOfCluster(s, live, b)
    requires c !in live && c !in RunSet(run) && run != 0 && RunSet(run) !! live && RunSet(b) !! RunSet(run)
             && c !in RunSet(b)
    ensures Moved(SwapRun(live, a, b, run), s, live, TreeOverData(s, a, b, c, run))
  {
    hide WellLinked, Moved, TreePatch, TreeOverData, FirstOfCluster, SwapRun, RunSet;
    ClusterFacts(s, live, b);
    var u := DataPatch(s, b, run);
    DataMoved(s, live, b, run);
    SwapRunIsCompose(s, live, a, b, run);
    var e := MoveRun(live, b, run);
    EvictThenMove(s, live, a, b, run, e, u);
    var w := TreePatch(Put(u, b, u.disk[a]), u.disk[a].node, a, b);
    DataCommutes(s, live, a, b, c, run);
    SwapRunValues(s, live, a, b, run);
    MovedCongruent(SwapRun(live, a, b, run), s, live, w, TreeOverData(s, a, b, c, run));
  }

  lemma ClusterFacts(s: Sys, live: set<nat>, b: nat)
    requires WellLinked(s, live) && FirstOfCluster(s, live, b)
    ensures b in live && IsData(s.disk, b) && b in s.info && s.info[b].ino in s.iBno
    ensures var tb := s.iBno[s.info[b].ino];
            tb in live && IsTable(s.disk, tb) && s.info[b].cluster < |s.disk[tb].clusters|
  {
  }

  /** The live blocks afterwards. */
  lemma SwapRunValues(s: Sys, live: set<nat>, a: nat, b: nat, run: nat)
    requires WellLinked(s, live) && a in live && IsTree(s.disk, a) && FirstOfCluster(s, live, b) && RunSet(run) !! live
    ensures SwapRun(live, a, b, run).Values == live - {a} - RunSet(b) + {b} + RunSet(run)
  {
    hide WellLinked, FirstOfCluster, RunSet, SwapRun;
    var q, w := SwapRun(live, a, b, run), live - {a} - RunSet(b) + {b} + RunSet(run);
    ClusterFacts(s, live, b);
    ClusterRun(s, live, b, a);
    forall y | y in q.Values
      ensures y in w
    {
      var x :| x in q && q[x] == y;
      SwapRunAt(live, a, b, run, x);
      RunSetIs(x, b);
      RunSetIs(y, run);
    }
    forall y | y in w
      ensures y in q.Values
    {
      var x := if y == b then a else if y in RunSet(run) then b + (y - run) else y;
      RunSetIs(y, run);
      RunSetIs(y, b);
      ClusterRun(s, live, b, x);
      SwapRunAt(live, a, b, run, x);
      assert q[x] == y;
    }
  }

  lemma SwapRunAt(live: set<nat>, a: nat, b: nat, run: nat, x: nat)
    ensures x in SwapRun(live, a, b, run) <==> x in live
    ensures x in live ==> SwapRun(live, a, b, run)[x] == if x == a then b else if InRun(x, b) then run + (x - b) else x
  {
  }

  lemma DataCommutes(s: Sys, live: set<nat>, a: nat, b: nat, c: nat, run: nat)
    requires WellLinked(s, live) && a in live && IsTree(s.disk, a) && FirstOfCluster(s, live, b)
    requires c !in live && c !in RunSet(run) && run != 0 && RunSet(run) !! live && RunSet(b) !! RunSet(run)
             && c !in RunSet(b)
    requires s.info[b].ino in s.iBno && IsTable(s.disk, s.iBno[s.info[b].ino])
    requires s.info[b].cluster < |s.disk[s.iBno[s.info[b].ino]].clusters|
    ensures var u := DataPatch(s, b, run);
            && IsTree(u.disk, a)
            && var w, v := TreePatch(Put(u, b, u.disk[a]), u.disk[a].node, a, b), TreeOverData(s, a, b, c, run);
               && v.iBno == w.iBno && v.info == w.info
               && forall y | y in SwapRun(live, a, b, run).Values && y in w.disk ::
                    y in v.disk && v.disk[y] == w.disk[y]
  {
    hide WellLinked, PatchTreeBlock, TreePatch, FirstOfCluster, RunSet, SwapRun;
    ClusterFacts(s, live, b);
    var tb := s.iBno[s.info[b].ino];
    LiveBlock(s, live, a);
    ClusterRun(s, live, b, a);
    ClusterRun(s, live, b, tb);
    SwapRunValues(s, live, a, b, run);
    TableInode(s, live, tb);
    var n, s1 := s.disk[a].node, CopyBoth(s, a, b, c);
    DataSplit(s, live, a, b, c, run, b);
    DataPatchAt(s, b, run, a);
    TreePatchAt(s1, n, a, b, tb);
    PatchOther(s1.disk[tb], tb, n, a, b);
    TreePatchAt(Put(DataPatch(s, b, run), b, s.disk[a]), n, a, b, b);
    var u := DataPatch(s, b, run);
    var w, v := TreePatch(Put(u, b, u.disk[a]), u.disk[a].node, a, b), TreeOverData(s, a, b, c, run);
    forall y | y in SwapRun(live, a, b, run).Values && y in w.disk
      ensures y in v.disk && v.disk[y] == w.disk[y]
    {
      DataSplit(s, live, a, b, c, run, y);
      DataCommutesAt(s, live, a, b, c, run, y);
    }
  }

  lemma DataSplit(s: Sys, live: set<nat>, a: nat, b: nat, c: nat, run: nat, y: nat)
    requires WellLinked(s, live) && a in live && IsTree(s.disk, a) && FirstOfCluster(s, live, b)
    requires c !in RunSet(run) && RunSet(run) !! live && RunSet(b) !! RunSet(run) && c !in RunSet(b)
    requires y in live - {a} - RunSet(b) + {b} + RunSet(run)
    ensures !InRun(c, run) && !InRun(c, b) && a != b && !InRun(a, b) && !InRun(a, run) && !InRun(b, run)
    ensures var tb := s.iBno[s.info[b].ino]; tb in live && !InRun(tb, b) && !InRun(tb, run)
    ensures InRun(y, run) ==> b + (y - run) in s.disk && IsData(s.disk, b + (y - run))
    ensures y == b || InRun(y, run) || (y in live && y != a && !InRun(y, b))
    ensures s.disk[a].node.root ==> s.disk[a].node.parent != s.info[b].ino
  {
    hide WellLinked, FirstOfCluster;
    ClusterFacts(s, live, b);
    var tb := s.iBno[s.info[b].ino];
    LiveBlock(s, live, a);
    TableInode(s, live, tb);
    ClusterRun(s, live, b, a);
    ClusterRun(s, live, b, tb);
    if InRun(y, run) {
      assert InRun(b + (y - run), b);
      ClusterRun(s, live, b, b + (y - run));
    }
    assert forall x :: InRun(x, run) ==> x in RunSet(run);
    assert forall x :: InRun(x, b) ==> x in RunSet(b);
  }

  /** The same, for one block; facts about the cluster are handed in. */
  lemma DataCommutesAt(s: Sys, live: set<nat>, a: nat, b: nat, c: nat, run: nat, y: nat)
    requires a in live && IsTree(s.disk, a) && c !in live && !InRun(c, run) && !InRun(c, b) && a != b && !InRun(a, b)
             && !InRun(a, run)
    requires b in live && IsData(s.disk, b) && b in s.info && s.info[b].ino in s.iBno
             && IsTable(s.disk, s.iBno[s.info[b].ino])
    requires s.info[b].cluster < |s.disk[s.iBno[s.info[b].ino]].clusters|
    requires var tb := s.iBno[s.info[b].ino]; tb in live && !InRun(tb, b) && !InRun(tb, run)
    requires s.disk[a].node.root ==> s.disk[a].node.parent != s.info[b].ino
    requires !InRun(b, run) && (InRun(y, run) ==> b + (y - run) in s.disk && IsData(s.disk, b + (y - run)))
    requires y == b || InRun(y, run) || (y in live && y != a && !InRun(y, b))
    ensures var u := DataPatch(s, b, run);
            && IsTree(u.disk, a)
            && var w, v := TreePatch(Put(u, b, u.disk[a]), u.disk[a].node, a, b), TreeOverData(s, a, b, c, run);
               y in w.disk ==> y in v.disk && v.disk[y] == w.disk[y]
  {
    hide PatchTreeBlock, TreePatch, RunSet, DataPatch;
    var u, n := DataPatch(s, b, run), s.disk[a].node;
    var s1 := CopyBoth(s, a, b, c);
    var s2 := TreePatch(s1, n, a, b);
    var tb := s.iBno[s.info[b].ino];
    DataPatchAt(s, b, run, a);
    DataPatchAt(s, b, run, y);
    TreePatchAt(Put(u, b, u.disk[a]), n, a, b, y);
    TreePatchAt(s1, n, a, b, y);
    TreePatchAt(s1, n, a, b, tb);
    TreePatchAt(s1, n, a, b, c);
    var from := b + (if InRun(y, run) then y - run else 0);
    TreePatchAt(s1, n, a, b, from);
    PatchOther(s1.disk[tb], tb, n, a, b);
    PatchOther(s.disk[b], c, n, a, b);
    if y in u.disk { PatchOther(u.disk[y], y, n, a, b); }
    if from in s.disk {
      PatchOther(s.disk[from], y, n, a, b);
      PatchOther(s.disk[from], from, n, a, b);
    }
    DataPatchAt(s2, b, run, y);
  }

  ghost function DataPatched(s: Sys, a: nat, b: nat, y: nat, tb: nat, c: nat): Block
    requires IsTable(s.disk, tb) && c < |s.disk[tb].clusters| && (y in s.disk || InRun(y, b))
  {
    if y == tb then s.disk[tb].(clusters := s.disk[tb].clusters[c := Cluster(b, s.disk[tb].clusters[c].len)])
    else if !InRun(y, b) then s.disk[y]
    else if a + (y - b) in s.disk then s.disk[a + (y - b)] else DataBlock([])
  }

  lemma DataPatchAt(s: Sys, a: nat, b: nat, y: nat)
    requires a in s.info && s.info[a].ino in s.iBno && IsTable(s.disk, s.iBno[s.info[a].ino])
    requires s.info[a].cluster < |s.disk[s.iBno[s.info[a].ino]].clusters|
    ensures var u, tb, c := DataPatch(s, a, b), s.iBno[s.info[a].ino], s.info[a].cluster;
            && (y in u.disk <==> y in s.disk || InRun(y, b))
            && (y in u.disk ==> u.disk[y] == DataPatched(s, a, b, y, tb, c))
  {
    RunSetIs(y, b);
  }

  // --------------------------------------------------------- tree over tree

  /** Nodes a and b hang off the same parent, a to the left of b. */
  ghost predicate LaterSibling(s: Sys, a: nat, b: nat) {
    && IsTree(s.disk, a) && IsTree(s.disk, b) && !s.disk[a].node.root && !s.disk[b].node.root
    && s.disk[a].node.parent == s.disk[b].node.parent && IsTree(s.disk, s.disk[a].node.parent)
    && var ks := Kids(s.disk[s.disk[a].node.parent].node);
       exists i, j | 0 <= i < j < |ks| :: ks[i] == a && ks[j] == b
  }

  /** Node b is the parent of node a. */
  ghost predicate IsParent(s: Sys, a: nat, b: nat) {
    IsTree(s.disk, a) && !s.disk[a].node.root && s.disk[a].node.parent == b
  }

  /** The redirection loop is a slot patch. */
  lemma RedirectedIs(s: Sys, live: set<nat>, a: nat, b: nat, c: nat)
    requires WellLinked(s, live) && a in live && IsTree(s.disk, a) && b in live
    ensures var n := s.disk[a].node;
            && (Touches(n, b) <==> b in Kids(n))
            && Redirected(n, b, c) == if b in Kids(n) then PatchSlot(n, b, c) else n
  {
    hide WellLinked, Touches, Redirected, PatchSlot, Kids;
    LiveBlock(s, live, a);
    LiveBlock(s, live, b);
    RedirectedSlot(s.disk[a].node, b, c);
  }

  lemma RedirectedSlot(n: BNode, b: nat, c: nat)
    requires n.nrOfKeys < |n.children| && Distinct(Kids(n)) && b != 0
    requires n.leaf ==> forall i | 0 <= i <= n.nrOfKeys :: n.children[i] == 0
    ensures Touches(n, b) <==> b in Kids(n)
    ensures Redirected(n, b, c) == if b in Kids(n) then PatchSlot(n, b, c) else n
  {
    hide FirstOf, ReplaceAll;
    var k := n.nrOfKeys + 1;
    assert forall l | 0 <= l < k :: n.children[..k][l] == n.children[l];
    if b in Kids(n) {
      var i := FirstOf(n.children, k, b);
      var j :| 0 <= j < |Kids(n)| && Kids(n)[j] == b;
      assert forall l | 0 <= l < k :: Kids(n)[l] == n.children[l];
      assert ReplaceAll(n.children, k, b, c) == n.children[i := c];
    } else {
      assert ReplaceAll(n.children, k, b, c) == n.children;
    }
  }

  /** Two slots of one node, patched in either order. */
  lemma SlotsCommute(n: BNode, a: nat, b: nat, c: nat, i: nat, j: nat)
    requires n.nrOfKeys < |n.children| && !n.leaf && Distinct(Kids(n)) && i < |Kids(n)| && j < |Kids(n)|
    requires Kids(n)[i] == a && Kids(n)[j] == b && a != b && c !in Kids(n)
    ensures var w := PatchSlot(PatchSlot(n, a, b), b, c);
            if j < i then w == PatchSlot(PatchSlot(n, b, c), a, b)
            else |Kids(w)| == |Kids(n)| && Kids(w)[i] == c
  {
    hide FirstOf;
    var k := n.nrOfKeys + 1;
    assert forall l | 0 <= l < k :: Kids(n)[l] == n.children[l];
    FirstIs(n.children, k, a, i);
    var n1 := n.(children := n.children[i := b]);
    assert PatchSlot(n, a, b) == n1;
    FirstIs(n1.children, k, b, if i < j then i else j);
    if j < i {
      FirstIs(n.children, k, b, j);
      var n2 := n.(children := n.children[j := c]);
      assert PatchSlot(n, b, c) == n2;
      FirstIs(n2.children, k, a, i);
      assert n.children[i := b][j := c] == n.children[j := c][i := b];
    }
  }

  lemma FirstIs(s: seq<nat>, n: nat, a: nat, i: nat)
    requires i < n <= |s| && s[i] == a && forall j | 0 <= j < i :: s[j] != a
    ensures FirstOf(s, n, a) == i
  {
  }

  lemma FirstNone(s: seq<nat>, n: nat, a: nat)
    requires n <= |s| && forall j | 0 <= j < n :: s[j] != a
    ensures FirstOf(s, n, a) == n
  {
  }

  /** What the two rounds of reference repair do to a third node. */
  lemma TreeCommutesAt(s: Sys, live: set<nat>, a: nat, b: nat, c: nat, n': BNode, o': BNode, y: nat)
    requires WellLinked(s, live) && a in live && IsTree(s.disk, a) && b in live && IsTree(s.disk, b) && a != b
    requires c !in live && c != 0 && !IsParent(s, a, b)
    requires y in live && IsTree(s.disk, y) && y != a && y != b
    requires var n, o := s.disk[a].node, s.disk[b].node;
             && n'.root == n.root && n'.parent == n.parent && o'.root == o.root && Kids(o') == Kids(o)
             && o'.parent == (if b in Kids(n) then b else o.parent)
             && (y in Kids(n') <==> y in Kids(n))
    ensures var w, z := PatchNode(PatchNode(s.disk[y].node, y, n', a, b), y, o', b, c),
                        PatchNode(PatchNode(s.disk[y].node, y, s.disk[b].node, b, c), y, n', a, b);
            if LaterSibling(s, a, b) && s.disk[a].node.parent == y
            then exists i | 0 <= i < |Kids(s.disk[y].node)| ::
                   Kids(s.disk[y].node)[i] == a && |Kids(w)| > i && Kids(w)[i] == c
            else w == z
  {
    hide WellLinked, PatchSlot, BlockOk;
    var n, o, x := s.disk[a].node, s.disk[b].node, s.disk[y].node;
    LiveBlock(s, live, y);
    OnlyParent(s, live, a, y);
    OnlyParent(s, live, b, y);
    OnlyParent(s, live, y, a);
    OnlyParent(s, live, y, b);
    OnlyParent(s, live, b, a);
    PatchParent(x, b, b, c);
    PatchParent(x, c, a, b);
    PatchParent(PatchSlot(x, a, b), b, b, c);
    PatchParent(PatchSlot(x, b, c), c, a, b);
    if a in Kids(x) && b in Kids(x) {
      var i :| 0 <= i < |Kids(x)| && Kids(x)[i] == a;
      var j :| 0 <= j < |Kids(x)| && Kids(x)[j] == b;
      assert !x.leaf && c !in Kids(x);
      SlotsCommute(x, a, b, c, i, j);
      assert LaterSibling(s, a, b) <==> i < j;
    }
  }

  /** Patching the parent field and patching slots do not meet. */
  lemma PatchParent(x: BNode, k: nat, d: nat, e: nat)
    ensures PatchSlot(x.(parent := k), d, e) == PatchSlot(x, d, e).(parent := k)
    ensures Kids(x.(parent := k)) == Kids(x)
  {
  }

  /** The node that is moved and the one that is evicted, after both rounds. */
  lemma TreeEnds(s: Sys, live: set<nat>, a: nat, b: nat, c: nat)
    requires WellLinked(s, live) && a in live && IsTree(s.disk, a) && b in live && IsTree(s.disk, b) && a != b
    requires c !in live && c != 0 && !IsParent(s, a, b)
    ensures var n, o := s.disk[a].node, s.disk[b].node;
            var n' := if b in Kids(n) then PatchSlot(n, b, c) else n;
            var o' := if b in Kids(n) then o.(parent := b) else o;
            && n'.root == n.root && n'.parent == n.parent
            && (forall y | y != b && y != c :: y in Kids(n') <==> y in Kids(n))
            && PatchNode(n, a, o, b, c) == n'
            && PatchNode(o', c, n', a, b) == o' && PatchNode(PatchNode(o, c, o, b, c), c, n', a, b) == o'
            && PatchNode(PatchNode(n', b, n', a, b), b, o', b, c) == n' && PatchNode(n', b, n', a, b) == n'
            && PatchNode(o', c, o', b, c) == o'
  {
    hide WellLinked, PatchSlot, BlockOk, FirstOf;
    var n, o := s.disk[a].node, s.disk[b].node;
    LiveBlock(s, live, a);
    LiveBlock(s, live, b);
    OnlyParent(s, live, a, b);
    OnlyParent(s, live, b, a);
    OnlyParent(s, live, b, b);
    PatchParent(o, b, b, c);
    if b in Kids(n) {
      SlotOf(s, live, a, b, c);
      KidsAfter(n, b, c);
      NoSlot(PatchSlot(n, b, c), b, c);
    }
  }

  lemma KidsAfter(n: BNode, b: nat, c: nat)
    requires |Kids(PatchSlot(n, b, c))| == |Kids(n)|
    requires forall i | 0 <= i < |Kids(n)| :: Kids(PatchSlot(n, b, c))[i] == if Kids(n)[i] == b then c else Kids(n)[i]
    ensures forall y | y != b && y != c :: y in Kids(PatchSlot(n, b, c)) <==> y in Kids(n)
    ensures b != c ==> b !in Kids(PatchSlot(n, b, c))
    ensures b in Kids(n) ==> c in Kids(PatchSlot(n, b, c))
    ensures PatchSlot(n, b, c).root == n.root && PatchSlot(n, b, c).parent == n.parent
            && PatchSlot(n, b, c).leaf == n.leaf
  {
    hide FirstOf;
    var ks, k2 := Kids(n), Kids(PatchSlot(n, b, c));
    forall y | y != b && y != c
      ensures y in k2 <==> y in ks
    {
      if y in ks { var i :| 0 <= i < |ks| && ks[i] == y; assert k2[i] == y; }
      if y in k2 { var i :| 0 <= i < |k2| && k2[i] == y; assert ks[i] == y; }
    }
    if b in ks { var i :| 0 <= i < |ks| && ks[i] == b; assert k2[i] == c; }
  }

  /** No slot holds b: nothing to patch. */
  lemma NoSlot(n: BNode, b: nat, c: nat)
    requires !n.leaf && b !in Kids(n)
    ensures PatchSlot(n, b, c) == n
  {
    if n.nrOfKeys < |n.children| {
      assert forall i | 0 <= i <= n.nrOfKeys :: n.children[i] == Kids(n)[i];
      FirstNone(n.children, n.nrOfKeys + 1, b);
    }
  }

  /** One block in the source's order and with eviction first. */
  lemma TreeOrders(s: Sys, live: set<nat>, a: nat, b: nat, c: nat, y: nat)
    requires WellLinked(s, live) && a in live && IsTree(s.disk, a) && b in live && IsTree(s.disk, b) && a != b
    requires c !in live && c != 0 && !IsParent(s, a, b)
    requires y in live - {a} + {c}
    ensures var u := TreePatch(Put(s, c, s.disk[b]), s.disk[b].node, b, c);
            && IsTree(u.disk, a)
            && var w, v := TreePatch(Put(u, b, u.disk[a]), u.disk[a].node, a, b), TreeOverTree(s, a, b, c);
               y in w.disk && y in v.disk && SameOrMissed(s, a, b, c, y, w.disk[y], v.disk[y])
  {
    hide WellLinked, PatchNode, PatchSlot, BlockOk, LaterSibling, Touches, Redirected, Kids, IsParent, SameOrMissed,
         TreePatch;
    var n, o := s.disk[a].node, s.disk[b].node;
    LiveBlock(s, live, a);
    LiveBlock(s, live, b);
    RedirectedIs(s, live, a, b, c);
    TreeEnds(s, live, a, b, c);
    var n' := if b in Kids(n) then PatchSlot(n, b, c) else n;
    var o' := if b in Kids(n) then o.(parent := b) else o;
    var u := TreePatch(Put(s, c, s.disk[b]), o, b, c);
    TreePatchAt(Put(s, c, s.disk[b]), o, b, c, a);
    TreePatchAt(Put(s, c, s.disk[b]), o, b, c, y);
    TreePatchAt(Put(s, c, s.disk[b]), o, b, c, b);
    var s1 := CopyTrees(s, a, b, c);
    var s2 := TreePatch(s1, n', a, b);
    TreePatchAt(s1, n', a, b, c);
    TreePatchAt(s1, n', a, b, y);
    TreePatchAt(s2, o', b, c, y);
    var w, v := TreePatch(Put(u, b, u.disk[a]), u.disk[a].node, a, b), TreeOverTree(s, a, b, c);
    assert u.disk[a] == TreeBlock(n');
    TreePatchAt(Put(u, b, u.disk[a]), n', a, b, y);
    if y == b || y == c {
      SharedParentOf(s, live, a, b, y, w.disk[y]);
    } else {
      LiveBlock(s, live, y);
      if s.disk[y].TreeBlock? {
        SameKids(o, b);
        TreeCommutesAt(s, live, a, b, c, n', o', y);
        Missed(s, a, b, c, y, w.disk[y], v.disk[y]);
      } else {
        SharedParentOf(s, live, a, b, y, w.disk[y]);
      }
    }
  }

  /** Blocks w and v at y agree; under a later sibling's parent, v has c where b belongs. */
  ghost predicate SameOrMissed(s: Sys, a: nat, b: nat, c: nat, y: nat, w: Block, v: Block) {
    if LaterSibling(s, a, b) && s.disk[a].node.parent == y
    then v.TreeBlock? && y in s.disk && s.disk[y].TreeBlock?
         && exists i | 0 <= i < |Kids(s.disk[y].node)| ::
              Kids(s.disk[y].node)[i] == a && |Kids(v.node)| > i && Kids(v.node)[i] == c
    else w == v
  }

  lemma Missed(s: Sys, a: nat, b: nat, c: nat, y: nat, w: Block, v: Block)
    requires w.TreeBlock? && v.TreeBlock? && IsTree(s.disk, y)
    requires if LaterSibling(s, a, b) && s.disk[a].node.parent == y
             then exists i | 0 <= i < |Kids(s.disk[y].node)| ::
                    Kids(s.disk[y].node)[i] == a && |Kids(v.node)| > i && Kids(v.node)[i] == c
             else v == w
    ensures SameOrMissed(s, a, b, c, y, w, v)
  {
  }

  lemma SharedParentOf(s: Sys, live: set<nat>, a: nat, b: nat, y: nat, w: Block)
    requires WellLinked(s, live) && a in live && b in live && (y == b || y !in live || !IsTree(s.disk, y))
    ensures SameOrMissed(s, a, b, 0, y, w, w) && forall c :: SameOrMissed(s, a, b, c, y, w, w)
  {
    if LaterSibling(s, a, b) {
      SharedParent(s, live, a, b);
    }
  }

  /** The source's order and eviction first agree on every block but a shared parent. */
  lemma TreeCommutes(s: Sys, live: set<nat>, a: nat, b: nat, c: nat)
    requires WellLinked(s, live) && a in live && IsTree(s.disk, a) && b in live && IsTree(s.disk, b) && a != b
    requires c !in live && c != 0 && !IsParent(s, a, b)
    ensures var u := TreePatch(Put(s, c, s.disk[b]), s.disk[b].node, b, c);
            && IsTree(u.disk, a)
            && var w, v := TreePatch(Put(u, b, u.disk[a]), u.disk[a].node, a, b), TreeOverTree(s, a, b, c);
               && v.iBno == w.iBno && v.info == w.info
               && forall y | y in live - {a} + {c} ::
                    y in w.disk && y in v.disk && SameOrMissed(s, a, b, c, y, w.disk[y], v.disk[y])
  {
    hide WellLinked, PatchNode, PatchSlot, BlockOk, LaterSibling, Touches, Redirected, Kids, IsParent, SameOrMissed,
         TreePatch;
    var n, o := s.disk[a].node, s.disk[b].node;
    LiveBlock(s, live, a);
    LiveBlock(s, live, b);
    RedirectedIs(s, live, a, b, c);
    TreeEnds(s, live, a, b, c);
    RootsApart(s, live, a, b);
    TreePatchAt(Put(s, c, s.disk[b]), o, b, c, a);
    var n' := if b in Kids(n) then PatchSlot(n, b, c) else n;
    var o' := if b in Kids(n) then o.(parent := b) else o;
    var s1 := CopyTrees(s, a, b, c);
    TreePatchAt(s1, n', a, b, c);
    TreePatchAt(TreePatch(s1, n', a, b), o', b, c, c);
    TreePatchAt(Put(TreePatch(Put(s, c, s.disk[b]), o, b, c), b, TreeBlock(n')), n', a, b, b);
    var u := TreePatch(Put(s, c, s.disk[b]), o, b, c);
    var w, v := TreePatch(Put(u, b, u.disk[a]), u.disk[a].node, a, b), TreeOverTree(s, a, b, c);
    forall y | y in live - {a} + {c}
      ensures y in w.disk && y in v.disk && SameOrMissed(s, a, b, c, y, w.disk[y], v.disk[y])
    {
      TreeOrders(s, live, a, b, c, y);
    }
  }

  lemma SharedParent(s: Sys, live: set<nat>, a: nat, b: nat)
    requires WellLinked(s, live) && a in live && b in live && LaterSibling(s, a, b)
    ensures var p := s.disk[a].node.parent; p in live && p != a && p != b && IsTree(s.disk, p)
  {
    LiveBlock(s, live, a);
    LiveBlock(s, live, b);
  }

  lemma RootsApart(s: Sys, live: set<nat>, a: nat, b: nat)
    requires WellLinked(s, live) && a in live && IsTree(s.disk, a) && b in live && IsTree(s.disk, b) && a != b
    ensures s.disk[a].node.root && s.disk[b].node.root ==> s.disk[a].node.parent != s.disk[b].node.parent
    ensures s.disk[b].node.root ==> b !in Kids(s.disk[a].node)
  {
    LiveBlock(s, live, a);
    LiveBlock(s, live, b);
  }

  /** Moving a node to a place taken by another one, as the source does it, renames both
      consistently exactly when the other one is neither a later sibling nor the parent. */
  lemma TreeOverTreeExact(s: Sys, live: set<nat>, a: nat, b: nat, c: nat)
    requires WellLinked(s, live) && a in live && IsTree(s.disk, a) && b in live && IsTree(s.disk, b) && a != b
    requires c !in live && c != 0
    ensures Moved(Swap(live, a, b, c), s, live, TreeOverTree(s, a, b, c))
            <==> !LaterSibling(s, a, b) && !IsParent(s, a, b)
  {
    hide WellLinked, Moved, TreePatch, TreeOverTree, LaterSibling, Kids, IsParent;
    if IsParent(s, a, b) {
      ParentMissed(s, live, a, b, c);
    } else {
      var u := TreePatch(Put(s, c, s.disk[b]), s.disk[b].node, b, c);
      TreeMoved(s, live, b, c);
      SwapIsCompose(live, a, b, c);
      EvictThenMove(s, live, a, b, c, MoveOne(live, b, c), u);
      var w := TreePatch(Put(u, b, u.disk[a]), u.disk[a].node, a, b);
      TreeCommutes(s, live, a, b, c);
      if LaterSibling(s, a, b) {
        SharedParent(s, live, a, b);
        SlotWrong(s, live, a, b, c, TreeOverTree(s, a, b, c));
      } else {
        MovedCongruent(Swap(live, a, b, c), s, live, w, TreeOverTree(s, a, b, c));
      }
    }
  }

  /** A node put in its parent's place: the first repair rewrites the node's own copy there,
      so the evicted parent still names the node's old block. */
  lemma ParentMissed(s: Sys, live: set<nat>, a: nat, b: nat, c: nat)
    requires WellLinked(s, live) && a in live && IsTree(s.disk, a) && b in live && IsTree(s.disk, b) && a != b
    requires c !in live && c != 0 && IsParent(s, a, b)
    ensures !Moved(Swap(live, a, b, c), s, live, TreeOverTree(s, a, b, c))
  {
    hide WellLinked, PatchSlot, TreePatch, Touches, Redirected, BlockOk;
    var n, o := s.disk[a].node, s.disk[b].node;
    LiveBlock(s, live, a);
    LiveBlock(s, live, b);
    OnlyParent(s, live, a, b);
    RedirectedIs(s, live, a, b, c);
    SlotFields(n, b, c);
    var i :| 0 <= i < |Kids(o)| && Kids(o)[i] == a;
    var s1 := CopyTrees(s, a, b, c);
    var n' := s1.disk[b].node;
    var s2 := TreePatch(s1, n', a, b);
    TreePatchAt(s1, n', a, b, c);
    assert IsTree(s2.disk, c) && Kids(s2.disk[c].node) == Kids(o);
    var v := TreeOverTree(s, a, b, c);
    TreePatchAt(s2, s2.disk[c].node, b, c, c);
    assert IsTree(v.disk, c) && Kids(v.disk[c].node) == Kids(o);
    SlotMissed(Swap(live, a, b, c), s.disk[b], v.disk[c], i);
  }

  /** A slot with the wrong number is not a renaming. */
  lemma SlotMissed(r: map<nat, nat>, x: Block, y: Block, i: nat)
    requires x.TreeBlock? && y.TreeBlock? && i < |Kids(x.node)| && i < |Kids(y.node)|
    requires Kids(x.node)[i] in r && r[Kids(x.node)[i]] != Kids(y.node)[i]
    ensures !Renamed(r, x, y)
  {
  }

  lemma SlotWrong(s: Sys, live: set<nat>, a: nat, b: nat, c: nat, v: Sys)
    requires WellLinked(s, live) && a in live && IsTree(s.disk, a) && b in live && c !in live && a != b
    requires var p := s.disk[a].node.parent;
             && p in live && p != a && p != b && IsTree(s.disk, p) && IsTree(v.disk, p)
             && exists i | 0 <= i < |Kids(s.disk[p].node)| ::
                  Kids(s.disk[p].node)[i] == a && |Kids(v.disk[p].node)| > i && Kids(v.disk[p].node)[i] == c
    ensures !Moved(Swap(live, a, b, c), s, live, v)
  {
    var r, p := Swap(live, a, b, c), s.disk[a].node.parent;
    var i :| && 0 <= i < |Kids(s.disk[p].node)| && Kids(s.disk[p].node)[i] == a
             && |Kids(v.disk[p].node)| > i && Kids(v.disk[p].node)[i] == c;
    SlotMissed(r, s.disk[p], v.disk[p], i);
  }

  /** A data block is never put elsewhere on its own: its cluster has one place in its table.
      So where the switch takes the first word of a data block for another type and puts
      that single block at c, no repair makes the result a renaming. */
  lemma DataAlone(s: Sys, live: set<nat>, a: nat, b: nat, c: nat, u: Sys)
    requires WellLinked(s, live) && a in live && !IsData(s.disk, a) && b in live && IsData(s.disk, b)
    requires c !in live
    ensures !Moved(Swap(live, a, b, c), s, live, u)
  {
    hide WellLinked, NrClusters, Moved, Renamed;
    if Moved(Swap(live, a, b, c), s, live, u) {
      var r := Swap(live, a, b, c);
      MovedAt(r, s, live, u, b);
      var tb, cl := s.iBno[s.info[b].ino], s.info[b].cluster;
      MovedAt(r, s, live, u, tb);
      var k: nat := b - s.disk[tb].clusters[cl].start;
      var j: nat := if k == 0 then 1 else 0;
      TableRun(s, live, tb, cl, k);
      TableRun(s, live, tb, cl, j);
      RenamedRun(r, s.disk[tb], u.disk[r[tb]], cl, k);
      RenamedRun(r, s.disk[tb], u.disk[r[tb]], cl, j);
    }
  }
}
