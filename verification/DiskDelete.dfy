/** Deletion on disk (btree.h): merge, steal, fill and the mutually recursive descent, each
    proved to carry out the tree operation of the same name and to give back exactly the
    blocks of merged nodes. Repairs of the source are marked where they are made. */
module DiskDelete {
  import opened Entries
  import opened BTree
  import opened BTreeDelete
  import opened Blocks
  import opened SlotLoops
  import opened Bitmap
  import opened DiskTree
  import opened Parents
  import opened DeleteLayout

  // -------------------------------------------------------- rewritten nodes

  /** The kids of both children of a pair, where only the three nodes above them changed. */
  lemma PairKids(d: Disk, e: Disk, t: nat, loc: Loc, tr: Tree, i: nat)
    requires Rep(d, t, loc, tr) && Apart(loc) && i + 1 < |loc.kids|
    requires Agree(d, e, Foot(loc) - {loc.bno, loc.kids[i].bno, loc.kids[i + 1].bno})
    ensures |loc.kids| == |tr.kids|
    ensures RepAll(e, t, loc.kids[i].kids, tr.kids[i].kids) && RepAll(e, t, loc.kids[i + 1].kids, tr.kids[i + 1].kids)
    ensures RepAll(e, t, loc.kids[..i], tr.kids[..i]) && RepAll(e, t, loc.kids[i + 2..], tr.kids[i + 2..])
  {
    PairAt(loc, i);
    hide FootAll, ApartAll, Apart, Foot, Holds;
    RepParts(d, t, loc, tr);
    RepParts(d, t, loc.kids[i], tr.kids[i]);
    RepParts(d, t, loc.kids[i + 1], tr.kids[i + 1]);
    RepAllFrame(d, e, t, loc.kids[i].kids, tr.kids[i].kids);
    RepAllFrame(d, e, t, loc.kids[i + 1].kids, tr.kids[i + 1].kids);
    RepRest(d, e, t, loc, tr, i, 2, {loc.bno, loc.kids[i].bno, loc.kids[i + 1].bno});
  }

  lemma RepMerge(d: Disk, e: Disk, t: nat, loc: Loc, tr: Tree, i: nat)
    requires Rep(d, t, loc, tr) && Apart(loc) && i + 1 < |loc.kids| && i < |tr.keys| && i + 1 < |tr.kids|
    requires Agree(d, e, Foot(loc) - {loc.bno, loc.kids[i].bno, loc.kids[i + 1].bno})
    requires loc.bno in e && e[loc.bno].TreeBlock? && Holds(t, e[loc.bno].node, MergeLoc(loc, i), Merge(tr, i))
    requires loc.kids[i].bno in e && e[loc.kids[i].bno].TreeBlock?
    requires Holds(t, e[loc.kids[i].bno].node, MergeLoc(loc, i).kids[i], Merge(tr, i).kids[i])
    ensures Rep(e, t, MergeLoc(loc, i), Merge(tr, i))
  {
    hide Holds, Foot, FootAll, Apart, ApartAll;
    PairKids(d, e, t, loc, tr, i);
    var a, b, ta, tb := loc.kids[i], loc.kids[i + 1], tr.kids[i], tr.kids[i + 1];
    var m, tm := Loc(a.bno, a.kids + b.kids), Glue(ta, tr.keys[i], tb);
    RepAllAppend(e, t, a.kids, ta.kids, b.kids, tb.kids);
    RepAssemble(e, t, MergeLoc(loc, i), Merge(tr, i), loc.kids[..i], tr.kids[..i], [m], [tm],
                loc.kids[i + 2..], tr.kids[i + 2..]);
  }

  lemma RepAllAppend(d: Disk, t: nat, a: seq<Loc>, ta: seq<Tree>, b: seq<Loc>, tb: seq<Tree>)
    requires RepAll(d, t, a, ta) && RepAll(d, t, b, tb)
    ensures RepAll(d, t, a + b, ta + tb)
  {
  }

  lemma RepPair(d: Disk, e: Disk, t: nat, loc: Loc, tr: Tree, i: nat, a: Loc, ta: Tree, b: Loc, tb: Tree, x: Entry)
    requires Rep(d, t, loc, tr) && Apart(loc) && i + 1 < |loc.kids| && i < |tr.keys| && i + 1 < |tr.kids|
    requires a.bno == loc.kids[i].bno && b.bno == loc.kids[i + 1].bno
    requires Agree(d, e, Foot(loc) - {loc.bno, a.bno, b.bno})
    requires loc.bno in e && e[loc.bno].TreeBlock?
             && Holds(t, e[loc.bno].node, PairLoc(loc, i, a, b), WithPair(tr, i, ta, x, tb))
    requires a.bno in e && e[a.bno].TreeBlock? && Holds(t, e[a.bno].node, a, ta) && RepAll(e, t, a.kids, ta.kids)
    requires b.bno in e && e[b.bno].TreeBlock? && Holds(t, e[b.bno].node, b, tb) && RepAll(e, t, b.kids, tb.kids)
    ensures Rep(e, t, PairLoc(loc, i, a, b), WithPair(tr, i, ta, x, tb))
  {
    hide Holds, Foot, FootAll, Apart, ApartAll;
    PairKids(d, e, t, loc, tr, i);
    assert loc.kids[i := a][i + 1 := b] == loc.kids[..i] + [a, b] + loc.kids[i + 2..];
    assert tr.kids[i := ta][i + 1 := tb] == tr.kids[..i] + [ta, tb] + tr.kids[i + 2..];
    RepAssemble(e, t, PairLoc(loc, i, a, b), WithPair(tr, i, ta, x, tb), loc.kids[..i], tr.kids[..i], [a, b], [ta, tb],
                loc.kids[i + 2..], tr.kids[i + 2..]);
  }

  lemma HoldsMergedKid(t: nat, m: BNode, a: Loc, ta: Tree, n: BNode, b: Loc, tb: Tree, x: Entry, r: BNode)
    requires 2 <= t && Holds(t, m, a, ta) && Holds(t, n, b, tb) && SameKind(ta, tb)
    requires |ta.keys| == |tb.keys| == t - 1
    requires |r.entries| == 2 * t - 1 && |r.children| == 2 * t && r.nrOfKeys == 2 * t - 1 && r.leaf == m.leaf
    requires forall k {:trigger r.entries[k]} | 0 <= k < 2 * t - 1 ::
      r.entries[k] == if k < t - 1 then m.entries[k] else if k == t - 1 then x else n.entries[k - t]
    requires !m.leaf ==> forall k {:trigger r.children[k]} | 0 <= k < 2 * t ::
      r.children[k] == if k < t then m.children[k] else n.children[k - t]
    ensures Holds(t, r, Loc(a.bno, a.kids + b.kids), Glue(ta, x, tb))
  {
    var g := Glue(ta, x, tb);
    assert forall k | 0 <= k < t - 1 :: m.entries[k] == ta.keys[k] && n.entries[k] == tb.keys[k];
    assert r.entries[..r.nrOfKeys] == g.keys;
  }

  lemma HoldsMergedPar(t: nat, n: BNode, loc: Loc, tr: Tree, r: BNode, i: nat)
    requires 2 <= t && Holds(t, n, loc, tr) && i < |tr.keys| && i + 1 < |tr.kids|
    requires |r.entries| == 2 * t - 1 && |r.children| == 2 * t && r.nrOfKeys == n.nrOfKeys - 1 && r.leaf == n.leaf
    requires forall k {:trigger r.entries[k]} | 0 <= k < n.nrOfKeys - 1 ::
      r.entries[k] == if k < i then n.entries[k] else n.entries[k + 1]
    requires forall k {:trigger r.children[k]} | 0 <= k < n.nrOfKeys ::
      r.children[k] == if k <= i then n.children[k] else n.children[k + 1]
    ensures Holds(t, r, MergeLoc(loc, i), Merge(tr, i))
  {
    var m := Merge(tr, i);
    assert forall k | 0 <= k < |tr.keys| :: n.entries[k] == tr.keys[k];
    assert r.entries[..r.nrOfKeys] == m.keys;
  }

  /** A parent whose key i was overwritten. */
  lemma HoldsKey(t: nat, n: BNode, loc: Loc, tr: Tree, i: nat, x: Entry, a: Loc, b: Loc, ta: Tree, tb: Tree)
    requires Holds(t, n, loc, tr) && i < |tr.keys| && i + 1 < |tr.kids| && i + 1 < |loc.kids|
    requires a.bno == loc.kids[i].bno && b.bno == loc.kids[i + 1].bno
    ensures Holds(t, n.(entries := n.entries[i := x]), PairLoc(loc, i, a, b), WithPair(tr, i, ta, x, tb))
  {
    var n' := n.(entries := n.entries[i := x]);
    assert n'.entries[..n.nrOfKeys] == tr.keys[i := x];
  }

  /** A node that lost its last key and last child. */
  lemma HoldsGiveLast(t: nat, n: BNode, loc: Loc, tr: Tree)
    requires 2 <= t && Holds(t, n, loc, tr) && 1 <= |tr.keys|
    ensures var k := |tr.keys| - 1;
            Holds(t, n.(nrOfKeys := k), if loc.kids == [] then loc else Loc(loc.bno, loc.kids[..k + 1]),
                  Node(tr.keys[..k], if |tr.kids| <= k then [] else tr.kids[..k + 1]))
  {
  }

  /** A node that got a key and a child in front. */
  lemma HoldsTakeFirst(t: nat, n: BNode, loc: Loc, tr: Tree, r: BNode, x: Entry, c: Loc, tc: Tree)
    requires 2 <= t && Holds(t, n, loc, tr) && |tr.keys| < 2 * t - 1
    requires |r.entries| == 2 * t - 1 && |r.children| == 2 * t && r.nrOfKeys == n.nrOfKeys + 1 && r.leaf == n.leaf
    requires forall k {:trigger r.entries[k]} | 0 <= k <= n.nrOfKeys ::
               r.entries[k] == if k == 0 then x else n.entries[k - 1]
    requires !n.leaf ==> forall k {:trigger r.children[k]} | 0 <= k <= n.nrOfKeys + 1 ::
      r.children[k] == if k == 0 then c.bno else n.children[k - 1]
    ensures Holds(t, r, if loc.kids == [] then loc else Loc(loc.bno, [c] + loc.kids),
                  Node([x] + tr.keys, if tr.kids == [] then [] else [tc] + tr.kids))
  {
    assert forall k | 0 <= k < |tr.keys| :: n.entries[k] == tr.keys[k];
    assert r.entries[..r.nrOfKeys] == [x] + tr.keys;
  }

  /** A node that got a key and a child at the end. */
  lemma HoldsTakeLast(t: nat, n: BNode, loc: Loc, tr: Tree, r: BNode, x: Entry, c: Loc, tc: Tree)
    requires 2 <= t && Holds(t, n, loc, tr) && |tr.keys| < 2 * t - 1
    requires r.entries == n.entries[n.nrOfKeys := x] && r.nrOfKeys == n.nrOfKeys + 1 && r.leaf == n.leaf
    requires r.children == if n.leaf then n.children else n.children[n.nrOfKeys + 1 := c.bno]
    ensures Holds(t, r, if loc.kids == [] then loc else Loc(loc.bno, loc.kids + [c]),
                  Node(tr.keys + [x], if tr.kids == [] then [] else tr.kids + [tc]))
  {
    assert forall k | 0 <= k < |tr.keys| :: n.entries[k] == tr.keys[k];
    assert r.entries[..r.nrOfKeys] == tr.keys + [x];
  }

  /** A node that lost its first key and first child. */
  lemma HoldsGiveFirst(t: nat, n: BNode, loc: Loc, tr: Tree, r: BNode)
    requires 2 <= t && Holds(t, n, loc, tr) && 1 <= |tr.keys|
    requires |r.entries| == 2 * t - 1 && |r.children| == 2 * t && r.nrOfKeys == n.nrOfKeys - 1 && r.leaf == n.leaf
    requires forall k {:trigger r.entries[k]} | 0 <= k < n.nrOfKeys - 1 :: r.entries[k] == n.entries[k + 1]
    requires !n.leaf ==> forall k {:trigger r.children[k]} | 0 <= k < n.nrOfKeys :: r.children[k] == n.children[k + 1]
    ensures Holds(t, r, if loc.kids == [] then loc else Loc(loc.bno, loc.kids[1..]),
                  Node(tr.keys[1..], if tr.kids == [] then [] else tr.kids[1..]))
  {
    assert forall k | 0 <= k < |tr.keys| :: n.entries[k] == tr.keys[k];
    assert r.entries[..r.nrOfKeys] == tr.keys[1..];
  }

  // ------------------------------------------------------------------ loops

  /** while (index < n && entries[index].hash < hash) index++; */
  method FindKeyLoop(es: seq<Entry>, n: nat, h: nat) returns (i: nat)
    requires n <= |es|
    ensures i == FindKey(es[..n], h)
  {
    i := 0;
    while i < n && es[i].hash < h
      invariant i <= n
      invariant forall j | 0 <= j < i :: es[j].hash < h
    {
      i := i + 1;
    }
    FindKeyUnique(es[..n], h, i);
  }

  lemma FindKeyUnique(keys: seq<Entry>, h: nat, i: nat)
    requires i <= |keys| && (forall j | 0 <= j < i :: keys[j].hash < h) && (i < |keys| ==> keys[i].hash >= h)
    ensures i == FindKey(keys, h)
  {
  }

  /** basicbtfs_btree_node_lookup_with_entry, with the bound on index that delete has. */
  method LookupWithEntry(v: Volume, bno: nat, hash: nat, ghost loc: Loc, ghost tr: Tree) returns (r: Option<Entry>)
    requires Rep(v.blocks, v.t, loc, tr) && bno == loc.bno
    ensures r == Lookup(tr, hash)
    decreases tr
  {
    hide Rep, Holds;
    NodeOf(v.blocks, v.t, loc, tr);
    var node := v.blocks[bno].node;
    var index := FindKeyLoop(node.entries, node.nrOfKeys, hash);
    if index < node.nrOfKeys && node.entries[index].hash == hash {
      return Some(node.entries[index]);
    }
    if node.leaf {
      return None;
    }
    r := LookupWithEntry(v, node.children[index], hash, loc.kids[index], tr.kids[index]);
  }

  /** basicbtfs_btree_node_get_predecessor: down the last children from child index. */
  method GetPredecessor(v: Volume, bno: nat, index: nat, ghost loc: Loc, ghost tr: Tree, ghost h: nat)
    returns (e: Entry)
    requires 2 <= v.t && Rep(v.blocks, v.t, loc, tr) && 0 < h && Shape(v.t, tr, h) && index < |tr.kids|
             && bno == loc.bno
    ensures e == MaxEntry(tr.kids[index])
  {
    hide Rep, Holds;
    NodeOf(v.blocks, v.t, loc, tr);
    KidShape(v.t, tr, h);
    ghost var l, r := loc.kids[index], tr.kids[index];
    ghost var g: nat := h - 1;
    NodeOf(v.blocks, v.t, l, r);
    var node := v.blocks[v.blocks[bno].node.children[index]].node;
    while !node.leaf
      invariant Rep(v.blocks, v.t, l, r) && Shape(v.t, r, g) && 1 <= |r.keys|
      invariant l.bno in v.blocks && v.blocks[l.bno].TreeBlock? && node == v.blocks[l.bno].node
      invariant MaxEntry(r) == MaxEntry(tr.kids[index])
      decreases g
    {
      NodeOf(v.blocks, v.t, l, r);
      ShapeKids(v.t, r, g);
      KidShape(v.t, r, g);
      var n := node.nrOfKeys;
      l, r, g := l.kids[n], r.kids[n], g - 1;
      NodeOf(v.blocks, v.t, l, r);
      node := v.blocks[node.children[n]].node;
    }
    NodeOf(v.blocks, v.t, l, r);
    e := node.entries[node.nrOfKeys - 1];
  }

  /** basicbtfs_btree_node_get_succesor: down the first children from child index + 1. */
  method GetSuccessor(v: Volume, bno: nat, index: nat, ghost loc: Loc, ghost tr: Tree, ghost h: nat) returns (e: Entry)
    requires 2 <= v.t && Rep(v.blocks, v.t, loc, tr) && 0 < h && Shape(v.t, tr, h) && index + 1 < |tr.kids|
             && bno == loc.bno
    ensures e == MinEntry(tr.kids[index + 1])
  {
    hide Rep, Holds;
    NodeOf(v.blocks, v.t, loc, tr);
    KidShape(v.t, tr, h);
    ghost var l, r := loc.kids[index + 1], tr.kids[index + 1];
    ghost var g: nat := h - 1;
    NodeOf(v.blocks, v.t, l, r);
    var node := v.blocks[v.blocks[bno].node.children[index + 1]].node;
    while !node.leaf
      invariant Rep(v.blocks, v.t, l, r) && Shape(v.t, r, g) && 1 <= |r.keys|
      invariant l.bno in v.blocks && v.blocks[l.bno].TreeBlock? && node == v.blocks[l.bno].node
      invariant MinEntry(r) == MinEntry(tr.kids[index + 1])
      decreases g
    {
      NodeOf(v.blocks, v.t, l, r);
      ShapeKids(v.t, r, g);
      KidShape(v.t, r, g);
      l, r, g := l.kids[0], r.kids[0], g - 1;
      NodeOf(v.blocks, v.t, l, r);
      node := v.blocks[node.children[0]].node;
    }
    NodeOf(v.blocks, v.t, l, r);
    e := node.entries[0];
  }

  // ---------------------------------------------------------- rearrangements

  /** Slot arrays of the fixed sizes. */
  predicate Sized(t: nat, n: BNode) { 2 <= t && |n.entries| == 2 * t - 1 && |n.children| == 2 * t }

  /** The loops of a merge: the left node takes key index and everything of the right node, the
      parent closes the gap. */
  method MergeNodes(t: nat, node: BNode, lhs: BNode, rhs: BNode, index: nat) returns (newPar: BNode, newLhs: BNode)
    requires Sized(t, node) && Sized(t, lhs) && Sized(t, rhs) && index < node.nrOfKeys <= 2 * t - 1
    requires lhs.nrOfKeys == rhs.nrOfKeys == t - 1
    ensures newLhs == lhs.(entries := newLhs.entries, children := newLhs.children, nrOfKeys := 2 * t - 1)
            && Sized(t, newLhs)
    ensures forall k {:trigger newLhs.entries[k]} | 0 <= k < 2 * t - 1 :: newLhs.entries[k] ==
              if k < t - 1 then lhs.entries[k] else if k == t - 1 then node.entries[index] else rhs.entries[k - t]
    ensures !lhs.leaf ==> forall k {:trigger newLhs.children[k]} | 0 <= k < 2 * t ::
              newLhs.children[k] == if k < t then lhs.children[k] else rhs.children[k - t]
    ensures newPar == node.(entries := newPar.entries, children := newPar.children, nrOfKeys := node.nrOfKeys - 1)
    ensures Sized(t, newPar)
    ensures forall k {:trigger newPar.entries[k]} | 0 <= k < node.nrOfKeys - 1 ::
              newPar.entries[k] == if k < index then node.entries[k] else node.entries[k + 1]
    ensures forall k {:trigger newPar.children[k]} | 0 <= k < node.nrOfKeys ::
              newPar.children[k] == if k <= index then node.children[k] else node.children[k + 1]
  {
    var es := CopyRun(lhs.entries[t - 1 := node.entries[index]], t, rhs.entries, 0, rhs.nrOfKeys);
    var cs := lhs.children;
    if !lhs.leaf {
      cs := CopyRun(cs, t, rhs.children, 0, rhs.nrOfKeys + 1);
    }
    var pe := ShiftDown(node.entries, index + 1, node.nrOfKeys);
    var pc := ShiftDown(node.children, index + 2, node.nrOfKeys + 1);
    newLhs := lhs.(entries := es, children := cs, nrOfKeys := lhs.nrOfKeys + rhs.nrOfKeys + 1);
    newPar := node.(entries := pe, children := pc, nrOfKeys := node.nrOfKeys - 1);
  }

  /** basicbtfs_btree_node_merge. Repaired: the child copy is bounded by nr_of_keys, and the
      freed block is the one read before the shift, whose slot is not zeroed afterwards. */
  method MergeBlocks(v: Volume, bno: nat, index: nat, ghost loc: Loc, ghost tr: Tree, ghost h: nat)
    requires v.Ready() && v.Stored(loc, tr) && 0 < h && Shape(v.t, tr, h) && index < |tr.keys| && bno == loc.bno
    requires |tr.kids| == |tr.keys| + 1 == |loc.kids|
    requires |tr.kids[index].keys| == |tr.kids[index + 1].keys| == v.t - 1
    modifies v`blocks, v.alloc, v.alloc.bits
    ensures v.Ready() && v.Stored(MergeLoc(loc, index), Merge(tr, index))
    ensures loc.kids[index + 1].bno in Foot(loc) && v.alloc.Used() == old(v.alloc.Used()) - {loc.kids[index + 1].bno}
    ensures Foot(MergeLoc(loc, index)) == Foot(loc) - {loc.kids[index + 1].bno}
    ensures Agree(old(v.blocks), v.blocks, old(v.alloc.Used()) - Foot(loc)) && SameHeader(old(v.blocks), v.blocks, bno)
    ensures KeepsParents(old(v.blocks), v.blocks, Foot(loc))
    ensures ParentsOk(old(v.blocks), loc) ==> (ParentsOk(v.blocks, MergeLoc(loc, index)) <==> h == 1)
  {
    hide SetBits, Took, TookAt, Gave, FreeBits, Rep, RepAll, Foot, FootAll, Apart, ApartAll, Shape, Holds, Merge,
         MergeLoc, ParentsOk, Fits;
    RepFits(v.blocks, v.t, loc, tr);
    FootTrees(v.blocks, v.t, loc, tr);
    ghost var a, b, ta, tb := loc.kids[index], loc.kids[index + 1], tr.kids[index], tr.kids[index + 1];
    NodeOf(v.blocks, v.t, loc, tr);
    NodeOf(v.blocks, v.t, a, ta);
    NodeOf(v.blocks, v.t, b, tb);
    PairKind(v.t, tr, h, index);
    PairAt(loc, index);
    OwnBlock(loc);
    var t, node := v.t, v.blocks[bno].node;
    var lhsBno, rhsBno := node.children[index], node.children[index + 1];
    var lhs, rhs := v.blocks[lhsBno].node, v.blocks[rhsBno].node;
    var newPar, newLhs := MergeNodes(t, node, lhs, rhs, index);
    v.blocks := v.blocks[lhsBno := TreeBlock(newLhs)][bno := TreeBlock(newPar)];
    HoldsMergedKid(t, lhs, a, ta, rhs, b, tb, tr.keys[index], newLhs);
    HoldsMergedPar(t, node, loc, tr, newPar, index);
    MergedKid(loc, tr, index);
    RepMerge(old(v.blocks), v.blocks, t, loc, tr, index);
    MergeApart(loc, index);
    if ParentsOk(old(v.blocks), loc) {
      MergeParentsExact(old(v.blocks), v.blocks, t, loc, tr, h, index);
    }
    UsedInside(v.alloc, rhsBno);
    v.alloc.PutBlocks(rhsBno, 1);
  }

  lemma UsedInside(a: Allocator, b: nat)
    requires b in a.Used()
    ensures b < a.bits.Length
  {
  }

  lemma MergedKid(loc: Loc, tr: Tree, i: nat)
    requires i + 1 < |loc.kids| && i < |tr.keys| && i + 1 < |tr.kids|
    ensures i < |MergeLoc(loc, i).kids| && i < |Merge(tr, i).kids| && MergeLoc(loc, i).bno == loc.bno
    ensures MergeLoc(loc, i).kids[i] == Loc(loc.kids[i].bno, loc.kids[i].kids + loc.kids[i + 1].kids)
    ensures Merge(tr, i).kids[i] == Glue(tr.kids[i], tr.keys[i], tr.kids[i + 1])
  {
  }

  lemma PairKind(t: nat, tr: Tree, h: nat, i: nat)
    requires 0 < h && Shape(t, tr, h) && i + 1 < |tr.kids|
    ensures SameKind(tr.kids[i], tr.kids[i + 1])
    ensures tr.kids[i].kids == [] <==> tr.kids[i + 1].kids == []
    ensures |tr.kids[i].keys| <= 2 * t - 1 && |tr.kids[i + 1].keys| <= 2 * t - 1
  {
  }

  /** The right node has taken key `at` of the parent in front, which took the last key of the left
      node. */
  ghost predicate PrevStolen(t: nat, node: BNode, lhs: BNode, rhs: BNode, at: nat, newPar: BNode, newLhs: BNode,
                             newRhs: BNode) {
    && Sized(t, node) && Sized(t, lhs) && Sized(t, rhs) && 1 <= lhs.nrOfKeys <= 2 * t - 1 && at < |node.entries|
    && rhs.nrOfKeys < 2 * t - 1
    && var k := lhs.nrOfKeys - 1;
       && newLhs == lhs.(nrOfKeys := k) && newPar == node.(entries := node.entries[at := lhs.entries[k]])
       && newRhs == rhs.(entries := newRhs.entries, children := newRhs.children, nrOfKeys := rhs.nrOfKeys + 1)
       && Sized(t, newRhs)
       && (forall j {:trigger newRhs.entries[j]} | 0 <= j <= rhs.nrOfKeys ::
             newRhs.entries[j] == if j == 0 then node.entries[at] else rhs.entries[j - 1])
       && (!rhs.leaf ==> forall j {:trigger newRhs.children[j]} | 0 <= j <= rhs.nrOfKeys + 1 ::
             newRhs.children[j] == if j == 0 then lhs.children[k + 1] else rhs.children[j - 1])
  }

  method StealPrevNodes(t: nat, node: BNode, lhs: BNode, rhs: BNode, at: nat)
    returns (newPar: BNode, newLhs: BNode, newRhs: BNode)
    requires Sized(t, node) && Sized(t, lhs) && Sized(t, rhs) && at < |node.entries|
    requires 1 <= lhs.nrOfKeys <= 2 * t - 1 && rhs.nrOfKeys < 2 * t - 1
    ensures PrevStolen(t, node, lhs, rhs, at, newPar, newLhs, newRhs)
  {
    var es := ShiftUp(rhs.entries, 0, rhs.nrOfKeys);
    es := es[0 := node.entries[at]];
    var cs := rhs.children;
    if !rhs.leaf {
      cs := ShiftUp(cs, 0, rhs.nrOfKeys + 1);
      cs := cs[0 := lhs.children[lhs.nrOfKeys]];
    }
    var k := lhs.nrOfKeys - 1;
    newPar := node.(entries := node.entries[at := lhs.entries[k]]);
    newLhs, newRhs := lhs.(nrOfKeys := k), rhs.(entries := es, children := cs, nrOfKeys := rhs.nrOfKeys + 1);
  }

  /** basicbtfs_btree_node_steal_from_previous. Repaired: the two nodes are children index-1
      and index, as its use of key index-1 requires. */
  method StealFromPrevious(v: Volume, bno: nat, index: nat, ghost loc: Loc, ghost tr: Tree, ghost h: nat)
    requires v.Ready() && v.Stored(loc, tr) && 0 < h && Shape(v.t, tr, h) && 1 <= index <= |tr.keys| && bno == loc.bno
    requires |tr.kids| == |tr.keys| + 1 == |loc.kids|
    requires 1 <= |tr.kids[index - 1].keys| && |tr.kids[index].keys| < 2 * v.t - 1
    modifies v`blocks
    ensures v.Ready() && v.Stored(StealPrevLoc(loc, index), StealPrev(tr, index))
    ensures Foot(StealPrevLoc(loc, index)) == Foot(loc)
    ensures Agree(old(v.blocks), v.blocks, v.alloc.Used() - Foot(loc)) && SameHeader(old(v.blocks), v.blocks, bno)
    ensures KeepsParents(old(v.blocks), v.blocks, Foot(loc))
    ensures ParentsOk(old(v.blocks), loc) ==> (ParentsOk(v.blocks, StealPrevLoc(loc, index)) <==> h == 1)
  {
    hide SetBits, Took, TookAt, Gave, FreeBits, Rep, RepAll, Foot, FootAll, Apart, ApartAll, Shape, Holds, ParentsOk,
         Fits, StealPrevLoc, StealPrev;
    RepFits(v.blocks, v.t, loc, tr);
    FootTrees(v.blocks, v.t, loc, tr);
    var i := index - 1;
    ghost var a, b, ta, tb := loc.kids[i], loc.kids[i + 1], tr.kids[i], tr.kids[i + 1];
    NodeOf(v.blocks, v.t, loc, tr);
    NodeOf(v.blocks, v.t, a, ta);
    NodeOf(v.blocks, v.t, b, tb);
    PairKind(v.t, tr, h, i);
    PairAt(loc, i);
    OwnBlock(loc);
    var t, node := v.t, v.blocks[bno].node;
    var lhsBno, rhsBno := node.children[i], node.children[index];
    var lhs, rhs := v.blocks[lhsBno].node, v.blocks[rhsBno].node;
    var newPar, newLhs, newRhs := StealPrevNodes(t, node, lhs, rhs, i);
    v.blocks := v.blocks[lhsBno := TreeBlock(newLhs)][rhsBno := TreeBlock(newRhs)][bno := TreeBlock(newPar)];
    StealPrevRep(old(v.blocks), v.blocks, t, loc, tr, h, index, node, lhs, rhs, newPar, newLhs, newRhs);
    StealPrevApart(loc, index);
    if ParentsOk(old(v.blocks), loc) {
      StealPrevParentsExact(old(v.blocks), v.blocks, t, loc, tr, h, index);
    }
  }

  lemma StealPrevRep(d: Disk, e: Disk, t: nat, loc: Loc, tr: Tree, h: nat, index: nat, node: BNode, lhs: BNode,
                     rhs: BNode, newPar: BNode, newLhs: BNode, newRhs: BNode)
    requires 2 <= t && Rep(d, t, loc, tr) && Apart(loc) && 0 < h && Shape(t, tr, h) && 1 <= index <= |tr.keys|
    requires |tr.kids| == |tr.keys| + 1 == |loc.kids|
    requires 1 <= |tr.kids[index - 1].keys| && |tr.kids[index].keys| < 2 * t - 1
    requires Agree(d, e, Foot(loc) - {loc.bno, loc.kids[index - 1].bno, loc.kids[index].bno})
    requires Holds(t, node, loc, tr) && Holds(t, lhs, loc.kids[index - 1], tr.kids[index - 1])
    requires Holds(t, rhs, loc.kids[index], tr.kids[index])
    requires loc.bno in e && e[loc.bno] == TreeBlock(newPar)
    requires loc.kids[index - 1].bno in e && e[loc.kids[index - 1].bno] == TreeBlock(newLhs)
    requires loc.kids[index].bno in e && e[loc.kids[index].bno] == TreeBlock(newRhs)
    requires PrevStolen(t, node, lhs, rhs, index - 1, newPar, newLhs, newRhs)
    ensures Rep(e, t, StealPrevLoc(loc, index), StealPrev(tr, index))
  {
    hide Rep, Foot, FootAll, Apart, ApartAll, Shape, WithPair, PairLoc, StealPrev, StealPrevLoc;
    var i := index - 1;
    var a, b, ta, tb := loc.kids[i], loc.kids[index], tr.kids[i], tr.kids[index];
    var k, x := |ta.keys| - 1, tr.keys[i];
    PairKind(t, tr, h, i);
    PairKids(d, e, t, loc, tr, i);
    RepPartsKids(e, t, a.kids, ta.kids);
    RepPartsKids(e, t, b.kids, tb.kids);
    HoldsGiveLast(t, lhs, a, ta);
    if ta.kids == [] {
      var ta', tb' := Node(ta.keys[..k], []), Node([x] + tb.keys, []);
      HoldsTakeFirst(t, rhs, b, tb, newRhs, x, Loc(0, []), ta);
      HoldsKey(t, node, loc, tr, i, ta.keys[k], a, b, ta', tb');
      RepPair(d, e, t, loc, tr, i, a, ta', b, tb', ta.keys[k]);
      StealPrevLeaf(loc, tr, index);
    } else {
      var cut, tcut := a.kids[k + 1..], ta.kids[k + 1..];
      assert cut == [a.kids[k + 1]] && tcut == [ta.kids[k + 1]];
      var a', ta' := Loc(a.bno, a.kids[..k + 1]), Node(ta.keys[..k], ta.kids[..k + 1]);
      var b', tb' := Loc(b.bno, cut + b.kids), Node([x] + tb.keys, tcut + tb.kids);
      RepAllAppend(e, t, cut, tcut, b.kids, tb.kids);
      HoldsTakeFirst(t, rhs, b, tb, newRhs, x, a.kids[k + 1], ta.kids[k + 1]);
      HoldsKey(t, node, loc, tr, i, ta.keys[k], a', b', ta', tb');
      RepPair(d, e, t, loc, tr, i, a', ta', b', tb', ta.keys[k]);
      StealPrevInner(loc, tr, index);
    }
  }

  lemma StealPrevLeaf(loc: Loc, tr: Tree, i: nat)
    requires 1 <= i <= |tr.keys| && i < |tr.kids| == |loc.kids| && 1 <= |tr.kids[i - 1].keys|
    requires tr.kids[i - 1].kids == [] && tr.kids[i].kids == [] && loc.kids[i - 1].kids == []
    ensures var ta, tb := tr.kids[i - 1], tr.kids[i]; var k := |ta.keys| - 1;
            && StealPrev(tr, i)
                 == WithPair(tr, i - 1, Node(ta.keys[..k], []), ta.keys[k], Node([tr.keys[i - 1]] + tb.keys, []))
            && StealPrevLoc(loc, i) == loc == PairLoc(loc, i - 1, loc.kids[i - 1], loc.kids[i])
  {
    assert [] + tr.kids[i].kids == [];
  }

  lemma StealPrevInner(loc: Loc, tr: Tree, i: nat)
    requires 1 <= i <= |tr.keys| && i < |tr.kids| == |loc.kids| && 1 <= |tr.kids[i - 1].keys|
    requires |loc.kids[i - 1].kids| == |tr.kids[i - 1].kids| == |tr.kids[i - 1].keys| + 1
    ensures var a, b, ta, tb := loc.kids[i - 1], loc.kids[i], tr.kids[i - 1], tr.kids[i]; var k := |ta.keys| - 1;
            && StealPrev(tr, i) == WithPair(tr, i - 1, Node(ta.keys[..k], ta.kids[..k + 1]), ta.keys[k],
                                            Node([tr.keys[i - 1]] + tb.keys, ta.kids[k + 1..] + tb.kids))
            && StealPrevLoc(loc, i)
                 == PairLoc(loc, i - 1, Loc(a.bno, a.kids[..k + 1]), Loc(b.bno, a.kids[k + 1..] + b.kids))
  {
  }

  /** RepAll one by one, and for the pieces the steals need. */
  lemma RepPartsKids(d: Disk, t: nat, a: seq<Loc>, ta: seq<Tree>)
    requires RepAll(d, t, a, ta)
    ensures |a| == |ta|
    ensures forall k | 0 <= k <= |a| :: RepAll(d, t, a[..k], ta[..k]) && RepAll(d, t, a[k..], ta[k..])
  {
  }

  /** The left node has taken key `at` of the parent at its end, which took the first key of the
      right node. */
  ghost predicate NextStolen(t: nat, node: BNode, lhs: BNode, rhs: BNode, at: nat, newPar: BNode, newLhs: BNode,
                             newRhs: BNode) {
    && Sized(t, node) && Sized(t, lhs) && Sized(t, rhs) && 1 <= rhs.nrOfKeys <= 2 * t - 1 && at < |node.entries|
    && lhs.nrOfKeys < 2 * t - 1
    && newPar == node.(entries := node.entries[at := rhs.entries[0]])
    && newLhs == lhs.(entries := lhs.entries[lhs.nrOfKeys := node.entries[at]], nrOfKeys := lhs.nrOfKeys + 1,
                      children := if lhs.leaf then lhs.children else lhs.children[lhs.nrOfKeys + 1 := rhs.children[0]])
    && newRhs == rhs.(entries := newRhs.entries, children := newRhs.children, nrOfKeys := rhs.nrOfKeys - 1)
    && Sized(t, newRhs)
    && (forall j {:trigger newRhs.entries[j]} | 0 <= j < rhs.nrOfKeys - 1 :: newRhs.entries[j] == rhs.entries[j + 1])
    && (!rhs.leaf ==> forall j {:trigger newRhs.children[j]} | 0 <= j < rhs.nrOfKeys ::
          newRhs.children[j] == rhs.children[j + 1])
  }

  method StealNextNodes(t: nat, node: BNode, lhs: BNode, rhs: BNode, at: nat)
    returns (newPar: BNode, newLhs: BNode, newRhs: BNode)
    requires Sized(t, node) && Sized(t, lhs) && Sized(t, rhs) && at < |node.entries|
    requires 1 <= rhs.nrOfKeys <= 2 * t - 1 && lhs.nrOfKeys < 2 * t - 1
    ensures NextStolen(t, node, lhs, rhs, at, newPar, newLhs, newRhs)
  {
    var ls := lhs.children;
    if !lhs.leaf {
      ls := ls[lhs.nrOfKeys + 1 := rhs.children[0]];
    }
    var es := ShiftDown(rhs.entries, 1, rhs.nrOfKeys);
    var cs := rhs.children;
    if !rhs.leaf {
      cs := ShiftDown(cs, 1, rhs.nrOfKeys + 1);
    }
    newPar := node.(entries := node.entries[at := rhs.entries[0]]);
    newLhs := lhs.(entries := lhs.entries[lhs.nrOfKeys := node.entries[at]], children := ls,
                   nrOfKeys := lhs.nrOfKeys + 1);
    newRhs := rhs.(entries := es, children := cs, nrOfKeys := rhs.nrOfKeys - 1);
  }

  /** basicbtfs_btree_node_steal_from_next */
  method StealFromNext(v: Volume, bno: nat, index: nat, ghost loc: Loc, ghost tr: Tree, ghost h: nat)
    requires v.Ready() && v.Stored(loc, tr) && 0 < h && Shape(v.t, tr, h) && index < |tr.keys| && bno == loc.bno
    requires |tr.kids| == |tr.keys| + 1 == |loc.kids|
    requires 1 <= |tr.kids[index + 1].keys| && |tr.kids[index].keys| < 2 * v.t - 1
    modifies v`blocks
    ensures v.Ready() && v.Stored(StealNextLoc(loc, index), StealNext(tr, index))
    ensures Foot(StealNextLoc(loc, index)) == Foot(loc)
    ensures Agree(old(v.blocks), v.blocks, v.alloc.Used() - Foot(loc)) && SameHeader(old(v.blocks), v.blocks, bno)
    ensures KeepsParents(old(v.blocks), v.blocks, Foot(loc))
    ensures ParentsOk(old(v.blocks), loc) ==> (ParentsOk(v.blocks, StealNextLoc(loc, index)) <==> h == 1)
  {
    hide SetBits, Took, TookAt, Gave, FreeBits, Rep, RepAll, Foot, FootAll, Apart, ApartAll, Shape, Holds, ParentsOk,
         Fits, StealNextLoc, StealNext;
    RepFits(v.blocks, v.t, loc, tr);
    FootTrees(v.blocks, v.t, loc, tr);
    ghost var a, b, ta, tb := loc.kids[index], loc.kids[index + 1], tr.kids[index], tr.kids[index + 1];
    NodeOf(v.blocks, v.t, loc, tr);
    NodeOf(v.blocks, v.t, a, ta);
    NodeOf(v.blocks, v.t, b, tb);
    PairKind(v.t, tr, h, index);
    PairAt(loc, index);
    OwnBlock(loc);
    var t, node := v.t, v.blocks[bno].node;
    var lhsBno, rhsBno := node.children[index], node.children[index + 1];
    var lhs, rhs := v.blocks[lhsBno].node, v.blocks[rhsBno].node;
    var newPar, newLhs, newRhs := StealNextNodes(t, node, lhs, rhs, index);
    v.blocks := v.blocks[lhsBno := TreeBlock(newLhs)][rhsBno := TreeBlock(newRhs)][bno := TreeBlock(newPar)];
    StealNextRep(old(v.blocks), v.blocks, t, loc, tr, h, index, node, lhs, rhs, newPar, newLhs, newRhs);
    StealNextApart(loc, index);
    if ParentsOk(old(v.blocks), loc) {
      StealNextParentsExact(old(v.blocks), v.blocks, t, loc, tr, h, index);
    }
  }

  lemma StealNextRep(d: Disk, e: Disk, t: nat, loc: Loc, tr: Tree, h: nat, i: nat, node: BNode, lhs: BNode, rhs: BNode,
                     newPar: BNode, newLhs: BNode, newRhs: BNode)
    requires 2 <= t && Rep(d, t, loc, tr) && Apart(loc) && 0 < h && Shape(t, tr, h) && i < |tr.keys|
    requires |tr.kids| == |tr.keys| + 1 == |loc.kids|
    requires 1 <= |tr.kids[i + 1].keys| && |tr.kids[i].keys| < 2 * t - 1
    requires Agree(d, e, Foot(loc) - {loc.bno, loc.kids[i].bno, loc.kids[i + 1].bno})
    requires Holds(t, node, loc, tr) && Holds(t, lhs, loc.kids[i], tr.kids[i])
    requires Holds(t, rhs, loc.kids[i + 1], tr.kids[i + 1])
    requires loc.bno in e && e[loc.bno] == TreeBlock(newPar)
    requires loc.kids[i].bno in e && e[loc.kids[i].bno] == TreeBlock(newLhs)
    requires loc.kids[i + 1].bno in e && e[loc.kids[i + 1].bno] == TreeBlock(newRhs)
    requires NextStolen(t, node, lhs, rhs, i, newPar, newLhs, newRhs)
    ensures Rep(e, t, StealNextLoc(loc, i), StealNext(tr, i))
  {
    hide Rep, RepAll, Foot, FootAll, Apart, ApartAll, Shape;
    var a, b, ta, tb := loc.kids[i], loc.kids[i + 1], tr.kids[i], tr.kids[i + 1];
    var x := tr.keys[i];
    PairKind(t, tr, h, i);
    PairKids(d, e, t, loc, tr, i);
    RepPartsKids(e, t, a.kids, ta.kids);
    RepPartsKids(e, t, b.kids, tb.kids);
    HoldsGiveFirst(t, rhs, b, tb, newRhs);
    if ta.kids == [] {
      var ta', tb' := Node(ta.keys + [x], []), Node(tb.keys[1..], []);
      HoldsTakeLast(t, lhs, a, ta, newLhs, x, Loc(0, []), ta);
      HoldsKey(t, node, loc, tr, i, tb.keys[0], a, b, ta', tb');
      RepPair(d, e, t, loc, tr, i, a, ta', b, tb', tb.keys[0]);
      StealNextLeaf(loc, tr, i);
    } else {
      var cut, tcut := b.kids[..1], tb.kids[..1];
      assert cut == [b.kids[0]] && tcut == [tb.kids[0]];
      var a', ta' := Loc(a.bno, a.kids + cut), Node(ta.keys + [x], ta.kids + tcut);
      var b', tb' := Loc(b.bno, b.kids[1..]), Node(tb.keys[1..], tb.kids[1..]);
      RepAllAppend(e, t, a.kids, ta.kids, cut, tcut);
      HoldsTakeLast(t, lhs, a, ta, newLhs, x, b.kids[0], tb.kids[0]);
      HoldsKey(t, node, loc, tr, i, tb.keys[0], a', b', ta', tb');
      RepPair(d, e, t, loc, tr, i, a', ta', b', tb', tb.keys[0]);
    }
  }

  lemma StealNextLeaf(loc: Loc, tr: Tree, i: nat)
    requires i < |tr.keys| && i + 1 < |tr.kids| == |loc.kids| && 1 <= |tr.kids[i + 1].keys|
    requires tr.kids[i].kids == [] && tr.kids[i + 1].kids == [] && loc.kids[i + 1].kids == []
    ensures var ta, tb := tr.kids[i], tr.kids[i + 1];
            && StealNext(tr, i) == WithPair(tr, i, Node(ta.keys + [tr.keys[i]], []), tb.keys[0], Node(tb.keys[1..], []))
            && StealNextLoc(loc, i) == loc == PairLoc(loc, i, loc.kids[i], loc.kids[i + 1])
  {
    assert tr.kids[i].kids + [] == [];
  }

  // ---------------------------------------------------------------- descent

  /** n blocks have been given back; the footprint has lost exactly those. */
  ghost predicate Shrunk(used: set<nat>, used': set<nat>, foot: set<nat>, foot': set<nat>, n: nat) {
    used' <= used && |used - used'| == n && foot' == foot - (used - used') && used - used' <= foot
  }

  lemma ShrunkTrans(u0: set<nat>, u1: set<nat>, u2: set<nat>, f0: set<nat>, f1: set<nat>, f2: set<nat>, n: nat, m: nat)
    requires Shrunk(u0, u1, f0, f1, n) && Shrunk(u1, u2, f1, f2, m)
    ensures Shrunk(u0, u2, f0, f2, n + m) && u0 - f0 <= u1 - f1
  {
    assert u0 - u2 == (u0 - u1) + (u1 - u2);
    assert f2 == f0 - (u0 - u2);
  }

  /** basicbtfs_btree_node_fill. Repaired: the previous sibling is child index-1, and the
      caller is told where the child is after a merge with it. */
  method FillChild(v: Volume, bno: nat, index: nat, ghost loc: Loc, ghost tr: Tree, ghost h: nat)
    returns (at: nat, ghost mid: Loc)
    requires v.Ready() && v.Stored(loc, tr) && 0 < h && Shape(v.t, tr, h) && 1 <= |tr.keys| && bno == loc.bno
    requires index < |tr.kids| == |tr.keys| + 1 && |tr.kids[index].keys| < v.t
    modifies v`blocks, v.alloc, v.alloc.bits
    ensures v.Ready() && at == Fill(v.t, tr, index).1 && mid.bno == bno && v.Stored(mid, Fill(v.t, tr, index).0)
    ensures Shrunk(old(v.alloc.Used()), v.alloc.Used(), Foot(loc), Foot(mid), |tr.keys| - |Fill(v.t, tr, index).0.keys|)
    ensures Agree(old(v.blocks), v.blocks, old(v.alloc.Used()) - Foot(loc)) && SameHeader(old(v.blocks), v.blocks, bno)
    ensures |loc.kids| == |tr.kids| && mid == FillLoc(v.t, loc, tr, index)
            && KeepsParents(old(v.blocks), v.blocks, Foot(loc))
  {
    hide SetBits, Took, TookAt, Gave, FreeBits, Rep, RepAll, Foot, FootAll, Apart, ApartAll, Shape, Holds,
         StealPrevLoc, StealNextLoc, MergeLoc, ParentsOk, KeepsParents;
    NodeOf(v.blocks, v.t, loc, tr);
    MinKeys(v.t, tr, h);
    var node := v.blocks[bno].node;
    if index > 0 {
      NodeOf(v.blocks, v.t, loc.kids[index - 1], tr.kids[index - 1]);
    }
    if index < node.nrOfKeys {
      NodeOf(v.blocks, v.t, loc.kids[index + 1], tr.kids[index + 1]);
    }
    at := index;
    if index != 0 && v.blocks[node.children[index - 1]].node.nrOfKeys >= v.t {
      StealFromPrevious(v, bno, index, loc, tr, h);
      mid := StealPrevLoc(loc, index);
      StealPrevBno(loc, index);
    } else if index != node.nrOfKeys && v.blocks[node.children[index + 1]].node.nrOfKeys >= v.t {
      StealFromNext(v, bno, index, loc, tr, h);
      mid := StealNextLoc(loc, index);
      StealNextBno(loc, index);
    } else {
      if index == node.nrOfKeys {
        at := index - 1;
      }
      MergeBlocks(v, bno, at, loc, tr, h);
      mid := MergeLoc(loc, at);
      MergedKid(loc, tr, at);
      ShrunkOne(old(v.alloc.Used()), v.alloc.Used(), Foot(loc), Foot(mid), loc.kids[at + 1].bno);
    }
  }

  lemma MinKeys(t: nat, tr: Tree, h: nat)
    requires 2 <= t && 0 < h && Shape(t, tr, h)
    ensures forall i | 0 <= i < |tr.kids| :: t - 1 <= |tr.kids[i].keys| <= 2 * t - 1
  {
  }

  lemma StealPrevBno(loc: Loc, i: nat)
    requires 1 <= i < |loc.kids|
    ensures StealPrevLoc(loc, i).bno == loc.bno
  {
  }

  lemma StealNextBno(loc: Loc, i: nat)
    requires i + 1 < |loc.kids|
    ensures StealNextLoc(loc, i).bno == loc.bno
  {
  }

  lemma ShrunkOne(u: set<nat>, u': set<nat>, f: set<nat>, f': set<nat>, b: nat)
    requires b in f && f <= u && u' == u - {b} && f' == f - {b}
    ensures Shrunk(u, u', f, f', 1)
  {
    assert u - u' == {b};
  }

  /** The recursive call of delete on child j of a rearranged node. */
  method DeleteInChild(v: Volume, child: nat, x: nat, ghost mid: Loc, ghost s: Tree, ghost h: nat, ghost j: nat)
    returns (ghost loc': Loc)
    requires v.Ready() && v.Stored(mid, s) && 0 < h && j < |s.kids| && j < |mid.kids| && child == mid.kids[j].bno
    requires Shape(v.t, s.kids[j], h - 1) && 1 <= |s.kids[j].keys|
    modifies v`blocks, v.alloc, v.alloc.bits
    ensures v.Ready() && loc'.bno == mid.bno
    ensures v.Stored(loc', Node(s.keys, s.kids[j := Delete(v.t, s.kids[j], h - 1, x)]))
    ensures Shrunk(old(v.alloc.Used()), v.alloc.Used(), Foot(mid), Foot(loc'), Merges(v.t, s.kids[j], h - 1, x))
    ensures Agree(old(v.blocks), v.blocks, old(v.alloc.Used()) - Foot(mid))
            && SameHeader(old(v.blocks), v.blocks, mid.bno)
    ensures loc' == mid.(kids := mid.kids[j := DeleteLoc(v.t, mid.kids[j], s.kids[j], h - 1, x)])
    ensures KeepsParents(old(v.blocks), v.blocks, Foot(loc'))
    decreases h, 0
  {
    hide SetBits, Took, TookAt, Gave, FreeBits, Rep, RepAll, Foot, FootAll, Apart, ApartAll, Shape, Holds, FootRest,
         Delete, Merges, DeleteLoc, KeepsParents;
    FootAt(mid, j);
    NodeOf(v.blocks, v.t, mid, s);
    ghost var sub := NodeDelete(v, child, x, mid.kids[j], s.kids[j], h - 1);
    RepReplace(old(v.blocks), v.blocks, v.t, mid, s, j, sub, Delete(v.t, s.kids[j], h - 1, x));
    FootReplace(mid, j, sub);
    loc' := mid.(kids := mid.kids[j := sub]);
    KeepsRestOf(old(v.blocks), v.blocks, v.t, mid, s, j, sub);
  }

  lemma KeepsRestOf(d: Disk, e: Disk, t: nat, loc: Loc, tr: Tree, j: nat, c: Loc)
    requires Rep(d, t, loc, tr) && j < |loc.kids| && KeepsParents(d, e, Foot(c)) && Agree(d, e, FootRest(loc, j))
    ensures KeepsParents(d, e, Foot(loc.(kids := loc.kids[j := c])))
  {
    FootTrees(d, t, loc, tr);
    FootAt(loc, j);
    FootReplace(loc, j, c);
  }

  lemma KeepsOn(d: Disk, m: Disk, e: Disk, foot: set<nat>, mid: set<nat>, foot': set<nat>)
    requires KeepsParents(d, m, foot) && KeepsParents(m, e, foot') && foot' <= mid <= foot
    ensures KeepsParents(d, e, foot')
  {
  }

  lemma ShrunkNone(u: set<nat>, f: set<nat>)
    ensures Shrunk(u, u, f, f, 0)
  {
    assert u - u == {};
  }

  /** The child a hash that is not in this node is searched in, filled first if need be. */
  method FillForDescent(v: Volume, bno: nat, index: nat, x: nat, ghost loc: Loc, ghost tr: Tree, ghost h: nat)
    returns (child: nat, ghost mid: Loc)
    requires v.Ready() && v.Stored(loc, tr) && 0 < h && Shape(v.t, tr, h) && 1 <= |tr.keys| && bno == loc.bno
    requires |tr.kids| == |tr.keys| + 1 && index == FindKey(tr.keys, x)
             && (index < |tr.keys| ==> tr.keys[index].hash != x)
    modifies v`blocks, v.alloc, v.alloc.bits
    ensures v.Ready() && mid.bno == bno && v.Stored(mid, Prepare(v.t, tr, x).node) && Prepare(v.t, tr, x).hash == x
    ensures Prepare(v.t, tr, x).child < |mid.kids| && child == mid.kids[Prepare(v.t, tr, x).child].bno
    ensures Shrunk(old(v.alloc.Used()), v.alloc.Used(), Foot(loc), Foot(mid),
                   |tr.keys| - |Prepare(v.t, tr, x).node.keys|)
    ensures Agree(old(v.blocks), v.blocks, old(v.alloc.Used()) - Foot(loc)) && SameHeader(old(v.blocks), v.blocks, bno)
    ensures |loc.kids| == |tr.kids| && mid == PrepareLoc(v.t, loc, tr, x)
            && KeepsParents(old(v.blocks), v.blocks, Foot(loc))
  {
    hide SetBits, Took, TookAt, Gave, FreeBits, Rep, RepAll, Foot, FootAll, Apart, ApartAll, Shape, Holds, Fill,
         Shrunk, PrepareLoc, FillLoc, KeepsParents;
    KeepsAll(v.blocks, v.t, loc, tr);
    ShrunkNone(v.alloc.Used(), Foot(loc));
    PrepareShape(v.t, tr, h, x);
    NodeOf(v.blocks, v.t, loc, tr);
    NodeOf(v.blocks, v.t, loc.kids[index], tr.kids[index]);
    PrepareFills(v.t, loc, tr, x);
    mid := loc;
    var at := index;
    if v.blocks[v.blocks[bno].node.children[index]].node.nrOfKeys < v.t {
      at, mid := FillChild(v, bno, index, loc, tr, h);
    }
    NodeOf(v.blocks, v.t, mid, Prepare(v.t, tr, x).node);
    child := v.blocks[bno].node.children[at];
  }

  /** basicbtfs_btree_node_delete. Repaired: after a merge with the previous sibling the
      descent goes on there, and a leaf without the hash is left alone. */
  method NodeDelete(v: Volume, bno: nat, x: nat, ghost loc: Loc, ghost tr: Tree, ghost h: nat) returns (ghost loc': Loc)
    requires v.Ready() && v.Stored(loc, tr) && Shape(v.t, tr, h) && (0 < h ==> 1 <= |tr.keys|) && bno == loc.bno
    modifies v`blocks, v.alloc, v.alloc.bits
    ensures v.Ready() && loc'.bno == bno && v.Stored(loc', Delete(v.t, tr, h, x))
    ensures Shrunk(old(v.alloc.Used()), v.alloc.Used(), Foot(loc), Foot(loc'), Merges(v.t, tr, h, x))
    ensures Agree(old(v.blocks), v.blocks, old(v.alloc.Used()) - Foot(loc)) && SameHeader(old(v.blocks), v.blocks, bno)
    ensures loc' == DeleteLoc(v.t, loc, tr, h, x) && KeepsParents(old(v.blocks), v.blocks, Foot(loc'))
    decreases h, 2
  {
    hide SetBits, Took, TookAt, Gave, FreeBits, Rep, RepAll, Foot, FootAll, Apart, ApartAll, Shape, Holds, Prepare,
         Shrunk, KeepsParents, PrepareLoc;
    KeepsAll(v.blocks, v.t, loc, tr);
    ShrunkNone(v.alloc.Used(), Foot(loc));
    NodeOf(v.blocks, v.t, loc, tr);
    ShapeKids(v.t, tr, h);
    OwnBlock(loc);
    var node := v.blocks[bno].node;
    var index := FindKeyLoop(node.entries, node.nrOfKeys, x);
    if index < node.nrOfKeys && node.entries[index].hash == x {
      if node.leaf {
        RemoveFromLeaf(v, bno, index, loc, tr);
        loc' := loc;
        LeafKeeps(old(v.blocks), v.blocks, loc);
      } else {
        loc' := RemoveFromNonleaf(v, bno, index, loc, tr, h);
      }
    } else if node.leaf {
      loc' := loc;
    } else {
      ghost var st := Prepare(v.t, tr, x);
      PrepareShape(v.t, tr, h, x);
      var child;
      ghost var mid;
      child, mid := FillForDescent(v, bno, index, x, loc, tr, h);
      label Filled:
      NodeOf(v.blocks, v.t, mid, st.node);
      loc' := DeleteInChild(v, child, x, mid, st.node, h, st.child);
      ShrunkTrans(old(v.alloc.Used()), old@Filled(v.alloc.Used()), v.alloc.Used(), Foot(loc), Foot(mid), Foot(loc'),
                  |tr.keys| - |st.node.keys|, Merges(v.t, st.node.kids[st.child], h - 1, st.hash));
      KeepsBelow(old(v.alloc.Used()), old@Filled(v.alloc.Used()), v.alloc.Used(), old(v.blocks), old@Filled(v.blocks),
                 v.blocks,
                 Foot(loc), Foot(mid), Foot(loc'), |tr.keys| - |st.node.keys|,
                 Merges(v.t, st.node.kids[st.child], h - 1, st.hash));
    }
  }

  lemma LeafKeeps(d: Disk, e: Disk, loc: Loc)
    requires loc.kids == [] && SameHeader(d, e, loc.bno)
    ensures KeepsParents(d, e, Foot(loc))
  {
  }

  lemma KeepsBelow(u0: set<nat>, u1: set<nat>, u2: set<nat>, d: Disk, m: Disk, e: Disk, foot: set<nat>, mid: set<nat>,
                   foot': set<nat>, n: nat, k: nat)
    requires Shrunk(u0, u1, foot, mid, n) && Shrunk(u1, u2, mid, foot', k)
    requires KeepsParents(d, m, foot) && KeepsParents(m, e, foot')
    ensures KeepsParents(d, e, foot')
  {
    KeepsOn(d, m, e, foot, mid, foot');
  }

  /** What taking key i out of the first n slots leaves behind: the last key stays, once more,
      behind the live ones. */
  ghost predicate ShiftedOut(es: seq<Entry>, n: nat, i: nat, r: seq<Entry>) {
    && i < n <= |es| == |r|
    && forall k {:trigger r[k]} | 0 <= k < |es| :: r[k] == if i <= k < n - 1 then es[k + 1] else es[k]
  }

  /** basicbtfs_btree_node_remove_from_leaf */
  method RemoveFromLeaf(v: Volume, bno: nat, index: nat, ghost loc: Loc, ghost tr: Tree)
    requires v.Ready() && v.Stored(loc, tr) && tr.kids == [] && index < |tr.keys| && bno == loc.bno
    modifies v`blocks
    ensures v.Ready() && v.Stored(loc, Node(tr.keys[..index] + tr.keys[index + 1..], []))
    ensures Agree(old(v.blocks), v.blocks, v.alloc.Used() - Foot(loc)) && SameHeader(old(v.blocks), v.blocks, bno)
    ensures ShiftedOut(old(v.blocks)[bno].node.entries, |tr.keys|, index, v.blocks[bno].node.entries)
  {
    hide SetBits, Took, TookAt, Gave, FreeBits, Rep, RepAll, Foot, FootAll, Apart, ApartAll;
    NodeOf(v.blocks, v.t, loc, tr);
    OwnBlock(loc);
    var node := v.blocks[bno].node;
    var es := ShiftDown(node.entries, index + 1, node.nrOfKeys);
    var node' := node.(entries := es, nrOfKeys := node.nrOfKeys - 1);
    v.blocks := v.blocks[bno := TreeBlock(node')];
    assert forall k | 0 <= k < |tr.keys| :: node.entries[k] == tr.keys[k];
    assert es[..node'.nrOfKeys] == tr.keys[..index] + tr.keys[index + 1..];
    LeafRep(v.blocks, v.t, loc, Node(tr.keys[..index] + tr.keys[index + 1..], []));
  }

  /** basicbtfs_btree_node_remove_from_nonleaf */
  method RemoveFromNonleaf(v: Volume, bno: nat, index: nat, ghost loc: Loc, ghost tr: Tree, ghost h: nat)
    returns (ghost loc': Loc)
    requires v.Ready() && v.Stored(loc, tr) && 0 < h && Shape(v.t, tr, h) && index < |tr.keys| && bno == loc.bno
    requires |tr.kids| == |tr.keys| + 1 && index == FindKey(tr.keys, tr.keys[index].hash)
    modifies v`blocks, v.alloc, v.alloc.bits
    ensures v.Ready() && loc'.bno == bno && v.Stored(loc', Delete(v.t, tr, h, tr.keys[index].hash))
    ensures Shrunk(old(v.alloc.Used()), v.alloc.Used(), Foot(loc), Foot(loc'), Merges(v.t, tr, h, tr.keys[index].hash))
    ensures Agree(old(v.blocks), v.blocks, old(v.alloc.Used()) - Foot(loc)) && SameHeader(old(v.blocks), v.blocks, bno)
    ensures loc' == DeleteLoc(v.t, loc, tr, h, tr.keys[index].hash) && KeepsParents(old(v.blocks), v.blocks, Foot(loc'))
    decreases h, 1
  {
    hide SetBits, Took, TookAt, Gave, FreeBits, Rep, RepAll, Foot, FootAll, Apart, ApartAll, Shape, Holds, Prepare,
         Shrunk, KeepsParents, PrepareLoc;
    ghost var x := tr.keys[index].hash;
    ghost var st := Prepare(v.t, tr, x);
    PrepareShape(v.t, tr, h, x);
    var child, hash;
    ghost var mid;
    child, hash, mid := TakeOutKey(v, bno, index, loc, tr, h);
    label Taken:
    NodeOf(v.blocks, v.t, mid, st.node);
    loc' := DeleteInChild(v, child, hash, mid, st.node, h, st.child);
    ShrunkTrans(old(v.alloc.Used()), old@Taken(v.alloc.Used()), v.alloc.Used(), Foot(loc), Foot(mid), Foot(loc'),
                |tr.keys| - |st.node.keys|, Merges(v.t, st.node.kids[st.child], h - 1, st.hash));
    KeepsBelow(old(v.alloc.Used()), old@Taken(v.alloc.Used()), v.alloc.Used(), old(v.blocks), old@Taken(v.blocks),
               v.blocks,
               Foot(loc), Foot(mid), Foot(loc'), |tr.keys| - |st.node.keys|,
               Merges(v.t, st.node.kids[st.child], h - 1, st.hash));
  }

  /** The three cases of basicbtfs_btree_node_remove_from_nonleaf up to their recursive
      call: overwrite the key by its predecessor or successor, or merge around it. */
  method TakeOutKey(v: Volume, bno: nat, index: nat, ghost loc: Loc, ghost tr: Tree, ghost h: nat)
    returns (child: nat, hash: nat, ghost mid: Loc)
    requires v.Ready() && v.Stored(loc, tr) && 0 < h && Shape(v.t, tr, h) && index < |tr.keys| && bno == loc.bno
    requires |tr.kids| == |tr.keys| + 1 && index == FindKey(tr.keys, tr.keys[index].hash)
    modifies v`blocks, v.alloc, v.alloc.bits
    ensures var st := Prepare(v.t, tr, tr.keys[index].hash);
            && v.Ready() && mid.bno == bno && v.Stored(mid, st.node) && hash == st.hash
            && st.child < |mid.kids| && child == mid.kids[st.child].bno
            && Shrunk(old(v.alloc.Used()), v.alloc.Used(), Foot(loc), Foot(mid), |tr.keys| - |st.node.keys|)
    ensures Agree(old(v.blocks), v.blocks, old(v.alloc.Used()) - Foot(loc)) && SameHeader(old(v.blocks), v.blocks, bno)
    ensures |loc.kids| == |tr.kids| && mid == PrepareLoc(v.t, loc, tr, tr.keys[index].hash)
    ensures KeepsParents(old(v.blocks), v.blocks, Foot(loc))
  {
    hide SetBits, Took, TookAt, Gave, FreeBits, Rep, RepAll, Foot, FootAll, Apart, ApartAll, Shape, Holds, MaxEntry,
         MinEntry, Merge, MergeLoc, Shrunk, PrepareLoc, KeepsParents, ParentsOk;
    ShrunkNone(v.alloc.Used(), Foot(loc));
    NodeOf(v.blocks, v.t, loc, tr);
    OwnBlock(loc);
    MinKeys(v.t, tr, h);
    NodeOf(v.blocks, v.t, loc.kids[index], tr.kids[index]);
    NodeOf(v.blocks, v.t, loc.kids[index + 1], tr.kids[index + 1]);
    PrepareTakes(v.t, loc, tr, index);
    var node := v.blocks[bno].node;
    mid := loc;
    if v.blocks[node.children[index]].node.nrOfKeys >= v.t {
      var pred := GetPredecessor(v, bno, index, loc, tr, h);
      OverwriteKey(v, bno, index, pred, loc, tr);
      child, hash := node.children[index], pred.hash;
    } else if v.blocks[node.children[index + 1]].node.nrOfKeys >= v.t {
      var succ := GetSuccessor(v, bno, index, loc, tr, h);
      OverwriteKey(v, bno, index, succ, loc, tr);
      child, hash := node.children[index + 1], succ.hash;
    } else {
      hash := node.entries[index].hash;
      MergeBlocks(v, bno, index, loc, tr, h);
      mid := MergeLoc(loc, index);
      MergedKid(loc, tr, index);
      MergedCount(tr, index);
      ShrunkOne(old(v.alloc.Used()), v.alloc.Used(), Foot(loc), Foot(mid), loc.kids[index + 1].bno);
      NodeOf(v.blocks, v.t, mid, Merge(tr, index));
      child := v.blocks[bno].node.children[index];
    }
  }

  lemma MergedCount(tr: Tree, i: nat)
    requires i < |tr.keys| && i + 1 < |tr.kids|
    ensures |Merge(tr, i).keys| == |tr.keys| - 1
  {
  }

  /** memcpy(&node->entries[index], &pred, ...) */
  method OverwriteKey(v: Volume, bno: nat, index: nat, e: Entry, ghost loc: Loc, ghost tr: Tree)
    requires v.Ready() && v.Stored(loc, tr) && index < |tr.keys| && index + 1 < |tr.kids| && bno == loc.bno
    modifies v`blocks
    ensures v.Ready() && v.Stored(loc, Node(tr.keys[index := e], tr.kids))
    ensures Agree(old(v.blocks), v.blocks, v.alloc.Used() - {bno}) && SameHeader(old(v.blocks), v.blocks, bno)
    ensures KeepsParents(old(v.blocks), v.blocks, Foot(loc))
  {
    hide SetBits, Took, TookAt, Gave, FreeBits, Rep, RepAll, Foot, FootAll, Apart, ApartAll, Holds;
    FootTrees(v.blocks, v.t, loc, tr);
    NodeOf(v.blocks, v.t, loc, tr);
    OwnBlock(loc);
    var node := v.blocks[bno].node;
    v.blocks := v.blocks[bno := TreeBlock(node.(entries := node.entries[index := e]))];
    KeyRep(old(v.blocks), v.blocks, v.t, loc, tr, index, e);
  }

  lemma KeyRep(d: Disk, e: Disk, t: nat, loc: Loc, tr: Tree, i: nat, x: Entry)
    requires Rep(d, t, loc, tr) && Apart(loc) && i < |tr.keys| && i + 1 < |tr.kids| && i < |d[loc.bno].node.entries|
    requires e == d[loc.bno := TreeBlock(d[loc.bno].node.(entries := d[loc.bno].node.entries[i := x]))]
    ensures Rep(e, t, loc, Node(tr.keys[i := x], tr.kids))
  {
    var a, b, ta, tb := loc.kids[i], loc.kids[i + 1], tr.kids[i], tr.kids[i + 1];
    HoldsKey(t, d[loc.bno].node, loc, tr, i, x, a, b, ta, tb);
    assert PairLoc(loc, i, a, b) == loc by { assert loc.kids[i := a][i + 1 := b] == loc.kids; }
    assert WithPair(tr, i, ta, x, tb) == Node(tr.keys[i := x], tr.kids) by {
      assert tr.kids[i := ta][i + 1 := tb] == tr.kids;
    }
    RepAllFrame(d, e, t, loc.kids, tr.kids);
  }
}
