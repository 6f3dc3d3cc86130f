/** Moving one block: what the defragmenter rewrites around it (the defrag_move_ family),
    and why that amounts to renaming the block everywhere. */
module Relocate {
  import opened Blocks
  import opened System

  // --------------------------------------------------------- local rewriting

  /** First index below n holding a, or n. */
  function FirstOf(s: seq<nat>, n: nat, a: nat): (i: nat)
    requires n <= |s|
    ensures i <= n && (forall j | 0 <= j < i :: s[j] != a) && (i < n ==> s[i] == a)
  {
    if n == 0 then 0
    else
      var i := FirstOf(s, n - 1, a);
      if i < n - 1 || s[n - 1] == a then i else n
  }

  /** The first live child slot holding cur gets the value new. */
  function PatchSlot(n: BNode, cur: nat, new_: nat): BNode {
    if n.nrOfKeys >= |n.children| then n else
    var i := FirstOf(n.children, n.nrOfKeys + 1, cur);
    if i <= n.nrOfKeys then n.(children := n.children[i := new_]) else n
  }

  /** What moving node n from cur to new_ does to the tree block at b. */
  function PatchNode(x: BNode, b: nat, n: BNode, cur: nat, new_: nat): BNode {
    var y := if !n.root && b == n.parent then PatchSlot(x, cur, new_) else x;
    if b in Kids(n) then y.(parent := new_) else y
  }

  function PatchTreeBlock(x: Block, b: nat, n: BNode, cur: nat, new_: nat): Block {
    if x.TreeBlock? then TreeBlock(PatchNode(x.node, b, n, cur, new_)) else x
  }

  /** basicbtfs_defrag_move_btree_node */
  function TreePatch(s: Sys, n: BNode, cur: nat, new_: nat): Sys {
    s.(disk := map b | b in s.disk :: PatchTreeBlock(s.disk[b], b, n, cur, new_),
       iBno := if n.root then s.iBno[n.parent := new_] else s.iBno)
  }

  lemma TreePatchAt(s: Sys, n: BNode, cur: nat, new_: nat, y: nat)
    ensures y in TreePatch(s, n, cur, new_).disk <==> y in s.disk
    ensures y in s.disk ==> TreePatch(s, n, cur, new_).disk[y] == PatchTreeBlock(s.disk[y], y, n, cur, new_)
    ensures TreePatch(s, n, cur, new_).iBno == if n.root then s.iBno[n.parent := new_] else s.iBno
    ensures TreePatch(s, n, cur, new_).info == s.info
  {
  }

  /** What moving a name block to new_ does to the block at b; rb is the root of its
      directory, if it is the first one. */
  function PatchNameBlock(x: Block, b: nat, first: bool, rb: nat, prev: nat, next: nat, new_: nat): Block {
    var y := if first && b == rb && x.TreeBlock? then TreeBlock(x.node.(treeName := new_))
             else if !first && b == prev && x.NameBlock? then x.(next := new_) else x;
    if next != 0 && b == next && y.NameBlock? then y.(prev := new_) else y
  }

  function RootOf(s: Sys, ino: nat): nat { if ino in s.iBno then s.iBno[ino] else 0 }

  /** basicbtfs_defrag_move_namelist */
  function NamePatch(s: Sys, first: bool, prev: nat, next: nat, new_: nat): Sys {
    s.(disk := map b | b in s.disk :: PatchNameBlock(s.disk[b], b, first, RootOf(s, prev), prev, next, new_))
  }

  lemma NamePatchAt(s: Sys, first: bool, prev: nat, next: nat, new_: nat, y: nat)
    ensures y in NamePatch(s, first, prev, next, new_).disk <==> y in s.disk
    ensures y in s.disk ==> NamePatch(s, first, prev, next, new_).disk[y]
                            == PatchNameBlock(s.disk[y], y, first, RootOf(s, prev), prev, next, new_)
    ensures NamePatch(s, first, prev, next, new_).iBno == s.iBno && NamePatch(s, first, prev, next, new_).info == s.info
  {
  }

  /** basicbtfs_defrag_move_cluster_table */
  function TablePatch(s: Sys, ino: nat, new_: nat): Sys {
    s.(iBno := s.iBno[ino := new_])
  }

  /** The copies, the new start and the reverse-map entries of basicbtfs_defrag_move_file_block. */
  function DataPatch(s: Sys, a: nat, b: nat): Sys
    requires a in s.info && s.info[a].ino in s.iBno && IsTable(s.disk, s.iBno[s.info[a].ino])
    requires s.info[a].cluster < |s.disk[s.iBno[s.info[a].ino]].clusters|
  {
    var i, c := s.info[a].ino, s.info[a].cluster;
    var tb := s.disk[s.iBno[i]];
    var d := map x | x in s.disk.Keys + RunSet(b) ::
               if x !in RunSet(b) then s.disk[x]
               else if a + (x - b) in s.disk then s.disk[a + (x - b)] else DataBlock([]);
    Sys(d[s.iBno[i] := tb.(clusters := tb.clusters[c := Cluster(b, tb.clusters[c].len)])],
        s.iBno,
        map x | x in s.info.Keys + RunSet(a) + RunSet(b) ::
          if b <= x < b + CLUSTER_LEN then FileInfo(i, c)
          else if a <= x < a + CLUSTER_LEN then FileInfo(0, 0)
          else s.info[x])
  }

  predicate InRun(x: nat, a: nat) { a <= x < a + CLUSTER_LEN }

  function RunSet(a: nat): set<nat> { set x | 0 <= x < a + CLUSTER_LEN && InRun(x, a) }

  lemma RunSetIs(x: nat, a: nat)
    ensures x in RunSet(a) <==> InRun(x, a)
  {
  }

  // ------------------------------------------------------ one block at a time

  function MoveOne(live: set<nat>, a: nat, b: nat): map<nat, nat> {
    map x | x in live :: if x == a then b else x
  }

  function MoveRun(live: set<nat>, a: nat, b: nat): map<nat, nat> {
    map x | x in live :: if a <= x < a + CLUSTER_LEN then b + (x - a) else x
  }

  function Put(s: Sys, b: nat, x: Block): Sys { s.(disk := s.disk[b := x]) }

  /** The slot of a child is the only one holding its number. */
  lemma SlotOf(s: Sys, live: set<nat>, p: nat, c: nat, new_: nat)
    requires WellLinked(s, live) && p in live && IsTree(s.disk, p) && c in Kids(s.disk[p].node)
    ensures var n := s.disk[p].node; var m := PatchSlot(n, c, new_);
            && |Kids(m)| == |Kids(n)|
            && forall i | 0 <= i < |Kids(n)| :: Kids(m)[i] == if Kids(n)[i] == c then new_ else Kids(n)[i]
  {
    hide WellLinked, PatchSlot, Kids;
    LiveBlock(s, live, p);
    SlotOnly(s.disk[p].node, c, new_);
  }

  lemma SlotOnly(n: BNode, c: nat, new_: nat)
    requires n.nrOfKeys < |n.children| && Distinct(Kids(n)) && c in Kids(n)
    ensures var m := PatchSlot(n, c, new_);
            && |Kids(m)| == |Kids(n)|
            && forall i | 0 <= i < |Kids(n)| :: Kids(m)[i] == if Kids(n)[i] == c then new_ else Kids(n)[i]
  {
    hide FirstOf;
    var i := FirstOf(n.children, n.nrOfKeys + 1, c);
    assert forall k | 0 <= k <= n.nrOfKeys :: Kids(n)[k] == n.children[k];
    var k :| 0 <= k < |Kids(n)| && Kids(n)[k] == c;
    assert i <= n.nrOfKeys && Kids(n)[i] == c;
  }

  /** Who points at a tree node: its parent, and no other block. */
  lemma OnlyParent(s: Sys, live: set<nat>, b: nat, p: nat)
    requires WellLinked(s, live) && b in live && p in live && IsTree(s.disk, b) && IsTree(s.disk, p)
    ensures b in Kids(s.disk[p].node) <==> !s.disk[b].node.root && s.disk[b].node.parent == p
    ensures b !in Kids(s.disk[b].node)
  {
    assert BlockOk(s, live, b) && BlockOk(s, live, p);
  }

  /** Copying a node to a free block and rewriting around it renames it. */
  lemma TreeMoved(s: Sys, live: set<nat>, a: nat, b: nat)
    requires WellLinked(s, live) && a in live && IsTree(s.disk, a) && b !in live && b != 0
    ensures Moved(MoveOne(live, a, b), s, live, TreePatch(Put(s, b, s.disk[a]), s.disk[a].node, a, b))
  {
    hide WellLinked, Renamed, Kids, PatchTreeBlock;
    var n := s.disk[a].node;
    var r := MoveOne(live, a, b);
    var u := TreePatch(Put(s, b, s.disk[a]), n, a, b);
    LiveBlock(s, live, a);
    forall x | x in live && x in s.disk
      ensures r[x] in u.disk && Renamed(r, s.disk[x], u.disk[r[x]])
    {
      if x == a {
        TreeMovedSelf(s, live, a, b);
      } else if s.disk[x].TreeBlock? {
        TreeMovedOther(s, live, a, b, x);
      } else {
        TreeMovedRest(s, live, a, b, x);
        PatchOther(s.disk[x], x, n, a, b);
      }
    }
    TreeMovedInodes(s, live, a);
  }

  lemma PatchOther(x: Block, y: nat, n: BNode, a: nat, b: nat)
    ensures !x.TreeBlock? ==> PatchTreeBlock(x, y, n, a, b) == x
    ensures PatchTreeBlock(x, y, n, a, b).DataBlock? <==> x.DataBlock?
  {
  }

  /** The inode of a root, and no other, names its block. */
  lemma TreeMovedInodes(s: Sys, live: set<nat>, a: nat)
    requires WellLinked(s, live) && a in live && IsTree(s.disk, a)
    ensures 0 !in live
    ensures forall i | i in s.iBno ::
              s.iBno[i] in live && (s.iBno[i] == a <==> s.disk[a].node.root && s.disk[a].node.parent == i)
  {
    LiveBlock(s, live, a);
  }

  lemma TreeMovedSelf(s: Sys, live: set<nat>, a: nat, b: nat)
    requires WellLinked(s, live) && a in live && IsTree(s.disk, a) && b !in live && b != 0
    ensures Renamed(MoveOne(live, a, b), s.disk[a], PatchTreeBlock(s.disk[a], b, s.disk[a].node, a, b))
  {
    assert BlockOk(s, live, a);
  }

  lemma TreeMovedOther(s: Sys, live: set<nat>, a: nat, b: nat, x: nat)
    requires WellLinked(s, live) && a in live && IsTree(s.disk, a) && b !in live && b != 0
    requires x in live && x != a && IsTree(s.disk, x)
    ensures Renamed(MoveOne(live, a, b), s.disk[x], PatchTreeBlock(s.disk[x], x, s.disk[a].node, a, b))
  {
    hide WellLinked, PatchSlot, Kids;
    var n, m := s.disk[a].node, s.disk[x].node;
    LiveBlock(s, live, a);
    LiveBlock(s, live, x);
    OnlyParent(s, live, a, x);
    OnlyParent(s, live, x, a);
    SlotFields(m, a, b);
    SameKids(m, b);
    SameKids(PatchSlot(m, a, b), b);
    if a in Kids(m) {
      SlotOf(s, live, x, a, b);
    }
    assert forall i | 0 <= i < |Kids(m)| :: Kids(m)[i] in Kids(m);
    LeafKids(m);
  }

  /** A slot patch changes nothing but a slot. */
  lemma SlotFields(n: BNode, c: nat, new_: nat)
    ensures PatchSlot(n, c, new_) == n.(children := PatchSlot(n, c, new_).children)
    ensures |PatchSlot(n, c, new_).children| == |n.children|
  {
  }

  lemma LeafKids(n: BNode)
    ensures n.leaf ==> Kids(n) == []
  {
  }

  lemma SameKids(o: BNode, b: nat)
    ensures Kids(o.(parent := b)) == Kids(o)
  {
  }

  lemma TreeMovedRest(s: Sys, live: set<nat>, a: nat, b: nat, x: nat)
    requires WellLinked(s, live) && a in live && IsTree(s.disk, a) && b !in live && b != 0
    requires x in live && x in s.disk && !s.disk[x].TreeBlock?
    ensures Renamed(MoveOne(live, a, b), s.disk[x], s.disk[x])
  {
    assert BlockOk(s, live, x);
    if s.disk[x].TableBlock? {
      var cs := s.disk[x].clusters;
      forall c, k | 0 <= c < NrClusters(cs) && 0 <= k < CLUSTER_LEN
        ensures RunMoved(MoveOne(live, a, b), cs[c], cs[c], k)
      {
        assert RunOk(s, live, s.disk[x].ino, cs, c, k);
      }
    }
  }

  // --------------------------------------------------------- name blocks

  /** A patched name block, or what points at it. */
  lemma NameMoved(s: Sys, live: set<nat>, a: nat, b: nat)
    requires WellLinked(s, live) && a in live && IsName(s.disk, a) && b !in live && b != 0
    ensures var x := s.disk[a];
            Moved(MoveOne(live, a, b), s, live, NamePatch(Put(s, b, x), x.first, x.prev, x.next, b))
  {
    hide WellLinked, Renamed, NamePatch, PatchNameBlock;
    var x := s.disk[a];
    var r := MoveOne(live, a, b);
    var s1 := Put(s, b, x);
    var u := NamePatch(s1, x.first, x.prev, x.next, b);
    NamePatchAt(s1, x.first, x.prev, x.next, b, b);
    NotNamed(s, live, a);
    forall y | y in live && y in s.disk
      ensures r[y] in u.disk && Renamed(r, s.disk[y], u.disk[r[y]])
    {
      if s.disk[y].TreeBlock? {
        NameMovedTree(s, live, a, b, y);
      } else if s.disk[y].NameBlock? {
        NameMovedName(s, live, a, b, y);
      } else {
        NamePatchAt(s1, x.first, x.prev, x.next, b, y);
        NameOther(s.disk[y], y, x.first, RootOf(s1, x.prev), x.prev, x.next, b);
        if s.disk[y].TableBlock? { RunsStay(s, live, r, y); } else { DataStays(r, s.disk[y]); }
      }
    }
  }

  lemma NameOther(x: Block, y: nat, first: bool, rb: nat, prev: nat, next: nat, c: nat)
    ensures x.TableBlock? || x.DataBlock? ==> PatchNameBlock(x, y, first, rb, prev, next, c) == x
  {
  }

  lemma DataStays(r: map<nat, nat>, x: Block)
    ensures x.DataBlock? ==> Renamed(r, x, x)
  {
  }

  /** No inode names a name block. */
  lemma NotNamed(s: Sys, live: set<nat>, a: nat)
    requires WellLinked(s, live) && IsName(s.disk, a)
    ensures 0 !in live && forall i | i in s.iBno :: s.iBno[i] in live && s.iBno[i] != a
  {
    assert forall i | i in s.iBno :: Owns(s.disk, i, s.iBno[i]);
  }

  lemma NameMovedTree(s: Sys, live: set<nat>, a: nat, b: nat, y: nat)
    requires WellLinked(s, live) && a in live && IsName(s.disk, a) && b !in live && b != 0
    requires y in live && IsTree(s.disk, y)
    ensures var x := s.disk[a]; var u := NamePatch(Put(s, b, x), x.first, x.prev, x.next, b);
            y in u.disk && Renamed(MoveOne(live, a, b), s.disk[y], u.disk[y])
  {
    hide NamePatch, WellLinked, BlockOk;
    var m := s.disk[y].node;
    NamePatchTree(s, live, a, b, y);
    LiveBlock(s, live, a);
    LiveBlock(s, live, y);
    assert forall i | 0 <= i < |Kids(m)| :: Kids(m)[i] in Kids(m);
  }

  lemma LiveBlock(s: Sys, live: set<nat>, b: nat)
    requires WellLinked(s, live) && b in live
    ensures b in s.disk && b != 0
    ensures s.disk[b].TreeBlock? ==> TreeOk(s, live, b, s.disk[b].node)
    ensures s.disk[b].NameBlock? ==> NameOk(s, live, b, s.disk[b].first, s.disk[b].prev, s.disk[b].next)
  {
    assert BlockOk(s, live, b);
  }

  /** A tree block only notices the move of its own first name block. */
  lemma NamePatchTree(s: Sys, live: set<nat>, a: nat, b: nat, y: nat)
    requires WellLinked(s, live) && a in live && IsName(s.disk, a) && b !in live
    requires y in live && IsTree(s.disk, y)
    ensures var x := s.disk[a]; var u := NamePatch(Put(s, b, x), x.first, x.prev, x.next, b);
            && y in u.disk
            && u.disk[y] ==
               TreeBlock(if x.first && s.iBno[x.prev] == y then s.disk[y].node.(treeName := b) else s.disk[y].node)
  {
    LiveBlock(s, live, a);
  }

  lemma NameMovedName(s: Sys, live: set<nat>, a: nat, b: nat, y: nat)
    requires WellLinked(s, live) && a in live && IsName(s.disk, a) && b !in live && b != 0
    requires y in live && IsName(s.disk, y)
    ensures var x := s.disk[a]; var u := NamePatch(Put(s, b, x), x.first, x.prev, x.next, b);
            var r := MoveOne(live, a, b);
            r[y] in u.disk && Renamed(r, s.disk[y], u.disk[r[y]])
  {
    assert BlockOk(s, live, a) && BlockOk(s, live, y);
  }

  /** Clusters untouched by a move. */
  lemma RunsStay(s: Sys, live: set<nat>, r: map<nat, nat>, y: nat)
    requires WellLinked(s, live) && y in live && IsTable(s.disk, y)
    requires r.Keys == live && forall x | x in live && IsData(s.disk, x) :: r[x] == x
    ensures Renamed(r, s.disk[y], s.disk[y])
  {
    assert BlockOk(s, live, y);
    var cs := s.disk[y].clusters;
    forall c, k | 0 <= c < NrClusters(cs) && 0 <= k < CLUSTER_LEN
      ensures RunMoved(r, cs[c], cs[c], k)
    {
      assert RunOk(s, live, s.disk[y].ino, cs, c, k);
    }
  }

  // -------------------------------------------------------------- tables

  lemma TableMoved(s: Sys, live: set<nat>, a: nat, b: nat)
    requires WellLinked(s, live) && a in live && IsTable(s.disk, a) && b !in live && b != 0
    ensures Moved(MoveOne(live, a, b), s, live, TablePatch(Put(s, b, s.disk[a]), s.disk[a].ino, b))
  {
    hide WellLinked, Renamed;
    var r := MoveOne(live, a, b);
    var u := TablePatch(Put(s, b, s.disk[a]), s.disk[a].ino, b);
    OneTable(s, live, a);
    forall y | y in live && y in s.disk
      ensures r[y] in u.disk && Renamed(r, s.disk[y], u.disk[r[y]])
    {
      if s.disk[y].TableBlock? { RunsStay(s, live, r, y); } else { LinksStay(s, live, r, a, y); }
    }
  }

  /** A table is named by its own inode and by no other. */
  lemma OneTable(s: Sys, live: set<nat>, a: nat)
    requires WellLinked(s, live) && a in live && IsTable(s.disk, a)
    ensures 0 !in live && s.disk[a].ino in s.iBno
    ensures forall i | i in s.iBno :: s.iBno[i] in live && (s.iBno[i] == a <==> i == s.disk[a].ino)
  {
    assert BlockOk(s, live, a);
    assert forall i | i in s.iBno :: Owns(s.disk, i, s.iBno[i]);
  }

  /** Blocks other than tables do not refer to one. */
  lemma LinksStay(s: Sys, live: set<nat>, r: map<nat, nat>, a: nat, y: nat)
    requires WellLinked(s, live) && IsTable(s.disk, a) && y in live && y in s.disk && !s.disk[y].TableBlock?
    requires r.Keys == live && forall x | x in live && x != a :: r[x] == x
    ensures Renamed(r, s.disk[y], s.disk[y])
  {
    hide WellLinked;
    LiveBlock(s, live, y);
    if s.disk[y].TreeBlock? {
      assert forall i | 0 <= i < |Kids(s.disk[y].node)| :: Kids(s.disk[y].node)[i] in Kids(s.disk[y].node);
    }
  }

  // ---------------------------------------------------------------- data

  /** The run at b is free but for blocks of the run at a. */
  ghost predicate Vacant(live: set<nat>, a: nat, b: nat) { (RunSet(b) - RunSet(a)) !! live }

  /** A whole cluster, first block a, goes to the run at b, which may overlap its own. */
  lemma DataMoved(s: Sys, live: set<nat>, a: nat, b: nat)
    requires WellLinked(s, live) && FirstOfCluster(s, live, a) && b != 0 && Vacant(live, a, b)
    ensures Moved(MoveRun(live, a, b), s, live, DataPatch(s, a, b))
  {
    var r := MoveRun(live, a, b);
    var u := DataPatch(s, a, b);
    MoveRunInjective(live, a, b);
    forall y | y in live && y in s.disk
      ensures r[y] in u.disk && Renamed(r, s.disk[y], u.disk[r[y]])
    {
      DataMovedAt(s, live, a, b, y);
    }
    forall y | y in live && IsData(s.disk, y) && y in s.info
      ensures r[y] in u.info && u.info[r[y]] == s.info[y]
    {
      DataMovedInfo(s, live, a, b, y);
    }
    forall i | i in s.iBno
      ensures s.iBno[i] in r && u.iBno[i] == r[s.iBno[i]]
    {
      ClusterRun(s, live, a, s.iBno[i]);
    }
  }

  /** Block a is a data block and its cluster starts there. */
  ghost predicate FirstOfCluster(s: Sys, live: set<nat>, a: nat) {
    && a in live && IsData(s.disk, a) && DataOk(s, live, a)
    && s.disk[s.iBno[s.info[a].ino]].clusters[s.info[a].cluster].start == a
  }

  /** Every block of the run at a is a data block of a's cluster. */
  lemma ClusterRun(s: Sys, live: set<nat>, a: nat, y: nat)
    requires WellLinked(s, live) && FirstOfCluster(s, live, a)
    ensures InRun(y, a) ==> y in live && IsData(s.disk, y) && y in s.info && s.info[y] == s.info[a]
  {
    if InRun(y, a) {
      var tb := s.iBno[s.info[a].ino];
      assert BlockOk(s, live, tb);
      assert RunOk(s, live, s.disk[tb].ino, s.disk[tb].clusters, s.info[a].cluster, y - a);
    }
  }

  lemma MoveRunInjective(live: set<nat>, a: nat, b: nat)
    requires Vacant(live, a, b) && b != 0 && 0 !in live
    ensures Injective(MoveRun(live, a, b)) && 0 !in MoveRun(live, a, b).Values && MoveRun(live, a, b).Keys == live
  {
    var r := MoveRun(live, a, b);
    forall x, y | x in r && y in r && x != y
      ensures r[x] != r[y]
    {
      if InRun(x, a) { assert r[x] in RunSet(b); }
      if InRun(y, a) { assert r[y] in RunSet(b); }
    }
  }

  lemma DataMovedInfo(s: Sys, live: set<nat>, a: nat, b: nat, y: nat)
    requires WellLinked(s, live) && FirstOfCluster(s, live, a) && b != 0 && Vacant(live, a, b)
    requires y in live && IsData(s.disk, y) && y in s.info
    ensures var r, u := MoveRun(live, a, b), DataPatch(s, a, b); r[y] in u.info && u.info[r[y]] == s.info[y]
  {
    ClusterRun(s, live, a, y);
    if InRun(y, a) {
      assert b + (y - a) in RunSet(b);
    } else {
      assert y !in RunSet(b) && y !in RunSet(a);
      RunSetIs(y, b);
    }
  }

  lemma DataMovedAt(s: Sys, live: set<nat>, a: nat, b: nat, y: nat)
    requires WellLinked(s, live) && FirstOfCluster(s, live, a) && b != 0 && Vacant(live, a, b)
    requires y in live && y in s.disk
    ensures var r, u := MoveRun(live, a, b), DataPatch(s, a, b);
            r[y] in u.disk && Renamed(r, s.disk[y], u.disk[r[y]])
  {
    hide WellLinked, Renamed;
    var r, u := MoveRun(live, a, b), DataPatch(s, a, b);
    var tb := s.iBno[s.info[a].ino];
    ClusterRun(s, live, a, y);
    ClusterRun(s, live, a, tb);
    DataStays(r, s.disk[y]);
    if InRun(y, a) {
      assert b + (y - a) in RunSet(b);
      assert u.disk[r[y]] == s.disk[y];
    } else {
      assert y !in RunSet(b);
      if y == tb {
        DataMovedTable(s, live, a, b);
      } else if s.disk[y].TableBlock? {
        OtherTable(s, live, a, b, y);
      } else if s.disk[y].TreeBlock? {
        DataMovedTree(s, live, a, b, y);
      } else if s.disk[y].NameBlock? {
        DataMovedName(s, live, a, b, y);
      }
    }
  }

  lemma DataMovedTree(s: Sys, live: set<nat>, a: nat, b: nat, y: nat)
    requires WellLinked(s, live) && FirstOfCluster(s, live, a) && y in live && IsTree(s.disk, y)
    ensures Renamed(MoveRun(live, a, b), s.disk[y], s.disk[y])
  {
    var m := s.disk[y].node;
    assert BlockOk(s, live, y);
    if m.root { ClusterRun(s, live, a, m.treeName); } else { ClusterRun(s, live, a, m.parent); }
    forall i | 0 <= i < |Kids(m)|
      ensures Kids(m)[i] in live && !InRun(Kids(m)[i], a)
    {
      assert Kids(m)[i] in Kids(m);
      ClusterRun(s, live, a, Kids(m)[i]);
    }
  }

  lemma DataMovedName(s: Sys, live: set<nat>, a: nat, b: nat, y: nat)
    requires WellLinked(s, live) && FirstOfCluster(s, live, a) && y in live && IsName(s.disk, y)
    ensures Renamed(MoveRun(live, a, b), s.disk[y], s.disk[y])
  {
    assert BlockOk(s, live, y);
    ClusterRun(s, live, a, s.disk[y].prev);
    ClusterRun(s, live, a, s.disk[y].next);
  }

  /** The owning table: cluster c starts at b now, the others are where they were. */
  lemma DataMovedTable(s: Sys, live: set<nat>, a: nat, b: nat)
    requires WellLinked(s, live) && FirstOfCluster(s, live, a) && b != 0
    ensures var tb := s.iBno[s.info[a].ino]; var cs, c := s.disk[tb].clusters, s.info[a].cluster;
            Renamed(MoveRun(live, a, b), s.disk[tb], s.disk[tb].(clusters := cs[c := Cluster(b, cs[c].len)]))
  {
    var tb := s.iBno[s.info[a].ino];
    var cs, c := s.disk[tb].clusters, s.info[a].cluster;
    var cs' := cs[c := Cluster(b, cs[c].len)];
    assert BlockOk(s, live, tb);
    SameCount(cs, c, Cluster(b, cs[c].len));
    forall e, k | 0 <= e < NrClusters(cs) && 0 <= k < CLUSTER_LEN
      ensures RunMoved(MoveRun(live, a, b), cs[e], cs'[e], k)
    {
      assert RunOk(s, live, s.disk[tb].ino, cs, e, k);
      ClusterRun(s, live, a, cs[e].start + k);
    }
  }

  /** Overwriting a used cluster by a used one leaves the number of clusters. */
  lemma {:induction false} SameCount(cs: seq<Cluster>, c: nat, x: Cluster)
    requires c < NrClusters(cs) && x.start != 0
    ensures NrClusters(cs[c := x]) == NrClusters(cs)
  {
    if c > 0 {
      SameCount(cs[1..], c - 1, x);
      assert cs[c := x][1..] == cs[1..][c - 1 := x];
    } else {
      assert cs[0 := x][1..] == cs[1..];
    }
  }

  /** The clusters of another file do not meet the run. */
  lemma OtherTable(s: Sys, live: set<nat>, a: nat, b: nat, y: nat)
    requires WellLinked(s, live) && FirstOfCluster(s, live, a)
    requires y in live && IsTable(s.disk, y) && y != s.iBno[s.info[a].ino]
    ensures Renamed(MoveRun(live, a, b), s.disk[y], s.disk[y])
  {
    assert BlockOk(s, live, y);
    var cs := s.disk[y].clusters;
    forall c, k | 0 <= c < NrClusters(cs) && 0 <= k < CLUSTER_LEN
      ensures RunMoved(MoveRun(live, a, b), cs[c], cs[c], k)
    {
      assert RunOk(s, live, s.disk[y].ino, cs, c, k);
      ClusterRun(s, live, a, cs[c].start + k);
    }
  }
}
