/** What defragmenting a directory's tree achieves, and the input on which it fails. */
module DefragWhole {
  import opened Entries
  import opened BTree
  import opened Blocks
  import opened Bitmap
  import opened DiskTree
  import opened System
  import opened Relocate
  import opened DefragStep
  import opened Defrag
  import opened DefragNode
  import opened DefragTree

  /** Every tree, every name list and every file block reads in u as it did in s. */
  ghost predicate ReadsSame(s: Sys, live: set<nat>, u: Sys, r: map<nat, nat>, t: nat) {
    && r.Keys == live
    && (forall loc, tr | Rep(s.disk, t, loc, tr) && Foot(loc) <= live :: Rep(u.disk, t, MapLoc(r, loc), tr))
    && (forall b, payloads | b in live && Chain(s.disk, b, payloads) :: Chain(u.disk, r[b], payloads))
    && (forall ino, c: nat, k: nat | k < CLUSTER_LEN && IsFileCluster(s, ino, c) ::
          FileBlock(s, ino, c, k).Some? && FileBlock(u, ino, c, k) == FileBlock(s, ino, c, k))
  }

  ghost predicate IsFileCluster(s: Sys, ino: nat, c: nat) {
    ino in s.iBno && IsTable(s.disk, s.iBno[ino]) && c < NrClusters(s.disk[s.iBno[ino]].clusters)
  }

  lemma MovedReads(r: map<nat, nat>, s: Sys, live: set<nat>, u: Sys, t: nat)
    requires WellLinked(s, live) && Moved(r, s, live, u)
    ensures ReadsSame(s, live, u, r, t)
  {
    hide WellLinked, Moved, Rep, Chain, FileBlock, Foot;
    MovedInjective(r, s, live, u);
    forall loc, tr | Rep(s.disk, t, loc, tr) && Foot(loc) <= live
      ensures Rep(u.disk, t, MapLoc(r, loc), tr)
    {
      MovedTree(r, s, live, u, t, loc, tr);
    }
    forall b, payloads | b in live && Chain(s.disk, b, payloads)
      ensures Chain(u.disk, r[b], payloads)
    {
      MovedChain(r, s, live, u, b, payloads);
    }
    forall ino, c: nat, k: nat | k < CLUSTER_LEN && IsFileCluster(s, ino, c)
      ensures FileBlock(s, ino, c, k).Some? && FileBlock(u, ino, c, k) == FileBlock(s, ino, c, k)
    {
      NoZero(s, live);
      MovedFile(r, s, live, u, ino, c, k);
    }
  }

  /** A tree has as many blocks as nodes. */
  lemma {:induction false} FootSize(loc: Loc)
    requires Apart(loc)
    ensures |Foot(loc)| == Nodes(loc)
    decreases loc, 1
  {
    FootSizeAll(loc.kids);
    RootApart(loc);
  }

  lemma {:induction false} FootSizeAll(locs: seq<Loc>)
    requires ApartAll(locs)
    ensures |FootAll(locs)| == NodesAll(locs)
    decreases locs, 0
  {
    if locs != [] {
      FootSize(locs[0]);
      FootSizeAll(locs[1..]);
      SizeOfUnion(Foot(locs[0]), FootAll(locs[1..]));
    }
  }

  lemma SizeOfUnion(a: set<nat>, b: set<nat>)
    requires a !! b
    ensures |a + b| == |a| + |b|
  {
  }

  lemma {:induction false} SizeOfSubset(a: set<nat>, b: set<nat>)
    requires a <= b
    ensures |a| <= |b|
  {
    assert b == a + (b - a);
    SizeOfUnion(a, b - a);
  }

  /** The wanted places all lie below the high-water mark. */
  lemma NodesFit(loc: Loc, off: nat, mark: nat)
    requires Apart(loc) && Floor(Foot(loc), off) && AllBelow(Foot(loc), mark)
    ensures off + Nodes(loc) <= mark
  {
    FootSize(loc);
    OwnBlock(loc);
    assert off <= loc.bno < mark;
    var all := Range(off, mark - off);
    assert Foot(loc) <= all;
    RangeSize(off, mark - off);
    SizeOfSubset(Foot(loc), all);
  }

  /** The tree of directory ino, on the step defrag_directory begins with: its nodes are
      consecutive from off on, its inode names the new root, and everything on the volume
      reads as before. */
  method DefragDirectoryTree(v: Volume, ino: nat, off: nat, ghost loc: Loc, ghost tr: Tree, ghost live: set<nat>,
                             ghost base: nat)
    returns (ok: bool, off': nat, ghost r: map<nat, nat>)
    requires Steady(v, live, base) && 0 < base <= off
    requires ino in v.iBno && v.iBno[ino] == loc.bno && IsTree(v.blocks, loc.bno) && v.blocks[loc.bno].node.root
    requires Rep(v.blocks, v.t, loc, tr) && Apart(loc) && Foot(loc) <= live && Floor(Foot(loc), off)
    requires NoClash(loc, off) && NoStraddle(Snap(v), live, off)
    requires v.alloc.unused + (1 + CLUSTER_LEN) * Nodes(loc) <= v.alloc.bits.Length
    modifies v`blocks, v`iBno, v`info, v.alloc, v.alloc.bits
    ensures ok && off' == off + Nodes(loc) && Preorder(MapLoc(r, loc)) == Upto(off, Nodes(loc))
    ensures Rep(v.blocks, v.t, MapLoc(r, loc), tr) && ino in v.iBno && v.iBno[ino] == off
    ensures WellLinked(Snap(v), r.Values) && ReadsSame(old(Snap(v)), live, Snap(v), r, v.t)
    ensures Steady(v, r.Values, base) && NoStraddle(Snap(v), r.Values, off') && MapLoc(r, loc) == Ordered(loc, off)
    ensures Moved(r, old(Snap(v)), live, Snap(v)) && WalkMap(r, live, Foot(loc), off, old(v.alloc.unused))
    ensures old(v.alloc.unused) <= v.alloc.unused <= old(v.alloc.unused) + (1 + CLUSTER_LEN) * Nodes(loc)
  {
    hide WellLinked, Moved, Rep, Apart, NoClash, NoStraddle, ReadsSame, HonestAll, WalkMap, SetBits, Took, TookAt,
         Gave, MapLocs, OrderedAll, PreorderAll;
    ghost var s := Snap(v);
    LiveBelow(v.alloc.Used(), v.alloc.unused, v.alloc.bits.Length, live, base, Foot(loc));
    NodesFit(loc, off, v.alloc.unused);
    ok, off', r := DefragBtree(v, v.iBno[ino], off, loc, tr, live, base);
    OrderedPreorder(loc, off);
    MovedTree(r, s, live, Snap(v), v.t, loc, tr);
    MovedReads(r, s, live, Snap(v), v.t);
    MovedInode(r, s, live, Snap(v), ino);
  }

  // ----------------------------------------------------- where it goes wrong

  function Leaf(e: Entry): BNode { BNode([e, ZERO_ENTRY, ZERO_ENTRY], [0, 0, 0, 0], 10, 0, 1, 0, true, false) }

  /** A root at 10 whose first child lies at 12 and whose second one lies at 11. */
  function Crossed(lo: Entry, mid: Entry, hi: Entry): Sys {
    Sys(map[10 := TreeBlock(CrossedTop(mid, 12, 11)),
            11 := TreeBlock(Leaf(hi)), 12 := TreeBlock(Leaf(lo)), 13 := NameBlock(true, 1, 0, [])],
        map[1 := 10], map[])
  }

  /** Asked to put the first child where the second one is, the source exchanges the two
      slots: the keys below the root's key are found to its right. */
  lemma CrossedSlots(lo: Entry, mid: Entry, hi: Entry)
    ensures var s := Crossed(lo, mid, hi); var live := {10, 11, 12, 13};
            && WellLinked(s, live) && LaterSibling(s, 12, 11)
            && (var u := TreeOverTree(s, 12, 11, 14);
                && IsTree(u.disk, 10) && Kids(u.disk[10].node) == [14, 11]
                && IsTree(u.disk, 11) && u.disk[11].node.entries[0] == lo
                && IsTree(u.disk, 14) && u.disk[14].node.entries[0] == hi
                && !Moved(Swap(live, 12, 11, 14), s, live, u))
  {
    hide Moved, Swap, WellLinked, TreePatch, LaterSibling;
    var s, live := Crossed(lo, mid, hi), {10, 11, 12, 13};
    CrossedLinked(lo, mid, hi);
    CrossedSiblings(lo, mid, hi);
    TreeOverTreeExact(s, live, 12, 11, 14);
    CrossedCopies(lo, mid, hi);
    var s1 := CopyTrees(s, 12, 11, 14);
    var s2 := TreePatch(s1, Leaf(lo), 12, 11);
    TreePatchAt(s1, Leaf(lo), 12, 11, 10);
    TreePatchAt(s1, Leaf(lo), 12, 11, 11);
    TreePatchAt(s1, Leaf(lo), 12, 11, 14);
    TreePatchAt(s2, Leaf(hi), 11, 14, 10);
    TreePatchAt(s2, Leaf(hi), 11, 14, 11);
    TreePatchAt(s2, Leaf(hi), 11, 14, 14);
    CrossedRoot(lo, mid, hi);
  }

  function CrossedTop(mid: Entry, a: nat, b: nat): BNode {
    BNode([mid, ZERO_ENTRY, ZERO_ENTRY], [a, b, 0, 0], 1, 13, 1, 3, false, true)
  }

  lemma CrossedSiblings(lo: Entry, mid: Entry, hi: Entry)
    ensures LaterSibling(Crossed(lo, mid, hi), 12, 11) && !IsParent(Crossed(lo, mid, hi), 12, 11)
  {
    var ks := Kids(Crossed(lo, mid, hi).disk[10].node);
    assert ks[0] == 12 && ks[1] == 11;
  }

  /** The copies: neither leaf refers to the other. */
  lemma CrossedCopies(lo: Entry, mid: Entry, hi: Entry)
    ensures var d := CopyTrees(Crossed(lo, mid, hi), 12, 11, 14).disk;
            && d.Keys == {10, 11, 12, 13, 14} && d[10] == TreeBlock(CrossedTop(mid, 12, 11))
            && d[11] == TreeBlock(Leaf(lo)) && d[14] == TreeBlock(Leaf(hi))
  {
    var n := Leaf(lo);
    assert n.children[..2] == [0, 0];
    assert ReplaceAll(n.children, 2, 11, 14) == n.children;
  }

  /** The first repair makes both slots equal, so the second one hits the wrong slot. */
  lemma CrossedRoot(lo: Entry, mid: Entry, hi: Entry)
    ensures PatchNode(CrossedTop(mid, 12, 11), 10, Leaf(lo), 12, 11) == CrossedTop(mid, 11, 11)
    ensures PatchNode(CrossedTop(mid, 11, 11), 10, Leaf(hi), 11, 14) == CrossedTop(mid, 14, 11)
    ensures Kids(CrossedTop(mid, 14, 11)) == [14, 11]
    ensures PatchNode(Leaf(lo), 11, Leaf(lo), 12, 11) == Leaf(lo) == PatchNode(Leaf(lo), 11, Leaf(hi), 11, 14)
    ensures PatchNode(Leaf(hi), 14, Leaf(lo), 12, 11) == Leaf(hi) == PatchNode(Leaf(hi), 14, Leaf(hi), 11, 14)
  {
    FirstIs([12, 11, 0, 0], 2, 12, 0);
    FirstIs([11, 11, 0, 0], 2, 11, 0);
    assert [12, 11, 0, 0][0 := 11] == [11, 11, 0, 0] && [11, 11, 0, 0][0 := 14] == [14, 11, 0, 0];
    assert CrossedTop(mid, 14, 11).children[..2] == [14, 11];
  }

  lemma CrossedLinked(lo: Entry, mid: Entry, hi: Entry)
    ensures WellLinked(Crossed(lo, mid, hi), {10, 11, 12, 13})
  {
    var s, live := Crossed(lo, mid, hi), {10, 11, 12, 13};
    var ks := Kids(s.disk[10].node);
    assert ks == [12, 11] && ks[0] == 12 && ks[1] == 11;
    assert Kids(s.disk[11].node) == [] && Kids(s.disk[12].node) == [];
    assert BlockOk(s, live, 10) && BlockOk(s, live, 11) && BlockOk(s, live, 12) && BlockOk(s, live, 13);
  }
}
