/** What the parent fields are for: the defragmenter goes by them. Its volumes have them right, and
    two small directories on which an insertion and a deletion leave them wrong. */
module ParentLinks {
  import opened Entries
  import opened BTree
  import opened Blocks
  import opened Parents
  import opened DeleteLayout
  import opened System
  import opened Relocate
  import opened DefragTree
  import opened Room
  import opened DiskTree

  /** On a volume the defragmenter can work on every tree has its parent fields right; so once
      they are wrong in one tree, no set of live blocks with that tree is well linked. */
  lemma {:induction false} LinkedParents(s: Sys, live: set<nat>, t: nat, loc: Loc, tr: Tree)
    requires WellLinked(s, live) && Rep(s.disk, t, loc, tr) && Foot(loc) <= live
    ensures ParentsOk(s.disk, loc)
    decreases loc
  {
    hide WellLinked;
    assert loc.bno in Foot(loc);
    forall i | 0 <= i < |loc.kids|
      ensures ParentIs(s.disk, loc.kids[i].bno, loc.bno) && ParentsOk(s.disk, loc.kids[i])
    {
      FootMember(loc.kids, i);
      assert loc.kids[i].bno in Foot(loc.kids[i]);
      RepKid(s.disk, t, loc, tr, i);
      KidsOfNode(t, s.disk[loc.bno].node, loc, tr);
      LiveBlock(s, live, loc.bno);
      var ks := Kids(s.disk[loc.bno].node);
      assert ks[i] in ks;
      LinkedParents(s, live, t, loc.kids[i], tr.kids[i]);
    }
  }

  // --------------------------------------------------------- small directories

  function E(n: nat): Entry { Entry(n, n, 1, n) }

  function OneLeaf(n: nat): Tree { Node([E(n)], []) }

  /** A full root over four leaves. */
  function Wide(): Tree { Node([E(2), E(4), E(6)], [OneLeaf(1), OneLeaf(3), OneLeaf(5), OneLeaf(7)]) }

  function WideLoc(): Loc { Loc(10, [Loc(11, []), Loc(12, []), Loc(13, []), Loc(14, [])]) }

  function LeafNode(n: nat, parent: nat): Block {
    TreeBlock(BNode([E(n), ZERO_ENTRY, ZERO_ENTRY], [0, 0, 0, 0], parent, 0, 1, 0, true, false))
  }

  function WideDisk(): Disk {
    map[10 := TreeBlock(BNode([E(2), E(4), E(6)], [11, 12, 13, 14], 1, 1, 3, 7, false, true)),
        11 := LeafNode(1, 10), 12 := LeafNode(3, 10), 13 := LeafNode(5, 10), 14 := LeafNode(7, 10)]
  }

  /** Degree 2, all parent fields right, and one more file: the full root is split, and it is an
      inner node. */
  lemma WideLost()
    ensures Shape(2, Wide(), 1) && Rep(WideDisk(), 2, WideLoc(), Wide()) && Apart(WideLoc())
    ensures ParentsOk(WideDisk(), WideLoc()) && InsertSplitsInner(2, Wide(), 1, E(8))
  {
    WideStored();
    WideApart();
    var w := Wide();
    assert forall i | 0 <= i < 4 :: Shape(2, w.kids[i], 0) && |w.kids[i].keys| == 1;
    WideSplit();
  }

  lemma WideStored()
    ensures Rep(WideDisk(), 2, WideLoc(), Wide()) && ParentsOk(WideDisk(), WideLoc())
  {
    var d, l, w := WideDisk(), WideLoc(), Wide();
    forall i | 0 <= i < 4
      ensures Rep(d, 2, l.kids[i], w.kids[i]) && ParentsOk(d, l.kids[i])
    {
      assert d[l.kids[i].bno].node.entries[..1] == w.kids[i].keys;
    }
    assert d[10].node.entries[..3] == w.keys;
  }

  lemma WideSplit()
    requires Shape(2, Wide(), 1)
    ensures InsertSplitsInner(2, Wide(), 1, E(8))
  {
    GrownShape(2, Wide(), 1);
    assert InsertPos([], 8) == 0;
  }

  lemma WideApart()
    ensures Apart(WideLoc())
  {
    var a, b, c, e := Loc(11, []), Loc(12, []), Loc(13, []), Loc(14, []);
    FootTwo(a, b);
    FootTwo(c, e);
    FootAppend([a, b], [c, e]);
    ApartAppend([a, b], [c, e]);
    assert WideLoc().kids == [a, b] + [c, e];
  }

  /** A root over two inner nodes of one key each. */
  function Deep(): Tree {
    Node([E(4)], [Node([E(2)], [OneLeaf(1), OneLeaf(3)]), Node([E(6)], [OneLeaf(5), OneLeaf(7)])])
  }

  /** Degree 2, and the first file goes: the two inner nodes are merged on the way. */
  lemma DeepLost()
    ensures Shape(2, Deep(), 2) && MovesInner(2, Deep(), 2, 1)
  {
    var l, r := Node([E(2)], [OneLeaf(1), OneLeaf(3)]), Node([E(6)], [OneLeaf(5), OneLeaf(7)]);
    assert Shape(2, l, 1) && Shape(2, r, 1);
    assert Deep().kids[0] == l && Deep().kids[1] == r;
    assert FindKey(Deep().keys, 1) == 0;
    assert ShiftOf(2, Deep(), 1) == Merged;
  }
}
