/** Deletion through the root block and the release of a whole tree. */
module DiskRoot {
  import opened BTree
  import opened BTreeDelete
  import opened BTreeRuns
  import opened Blocks
  import opened Bitmap
  import opened DiskTree
  import opened DiskDelete
  import opened Parents
  import opened DeleteLayout

  /** basicbtfs_btree_delete_entry. A root that runs out of keys hands over to its only
      child; its own block stays allocated although no tree uses it any more. */
  method DeleteEntry(v: Volume, ino: nat, rootBno: nat, x: nat, ghost loc: Loc, ghost tr: Tree, ghost h: nat)
    returns (ghost loc': Loc)
    requires v.Ready() && v.Stored(loc, tr) && Shape(v.t, tr, h) && (0 < h ==> 1 <= |tr.keys|) && rootBno == loc.bno
    modifies v`blocks, v`iBno, v.alloc, v.alloc.bits
    ensures v.Ready() && v.Stored(loc', DeleteTree(v.t, tr, h, x))
    ensures loc'.bno == rootBno <==> DeleteHeight(v.t, tr, h, x) == h
    ensures Shrunk(old(v.alloc.Used()), v.alloc.Used(), Foot(loc),
                   Foot(loc') + if loc'.bno == rootBno then {} else {rootBno}, Merges(v.t, tr, h, x))
    ensures loc'.bno != rootBno ==> rootBno in v.alloc.Used() - Foot(loc')
    ensures v.iBno == if loc'.bno == rootBno then old(v.iBno) else old(v.iBno)[ino := loc'.bno]
    ensures RootCarried(old(v.blocks), rootBno, v.blocks, loc'.bno, ino, -1)
    ensures Agree(old(v.blocks), v.blocks, old(v.alloc.Used()) - Foot(loc))
    ensures ParentsOk(old(v.blocks), loc) ==> (ParentsOk(v.blocks, loc') <==> !MovesInner(v.t, tr, h, x))
  {
    hide SetBits, Took, TookAt, Gave, FreeBits, Rep, RepAll, Foot, FootAll, Apart, ApartAll, Shape, Holds, Shrunk,
         RootCarried, SameHeader, Delete, Merges, ParentsOk, DeleteLoc, MovesInner, KeepsParents, Fits;
    RepFits(v.blocks, v.t, loc, tr);
    ghost var r := Delete(v.t, tr, h, x);
    NodeOf(v.blocks, v.t, loc, tr);
    OwnBlock(loc);
    ghost var mid := NodeDelete(v, rootBno, x, loc, tr, h);
    OwnBlock(mid);
    label Deleted:
    loc' := AdjustRoot(v, ino, rootBno, mid, r, h);
    OwnBlock(loc');
    CarriedOver(old(v.blocks), old@Deleted(v.blocks), v.blocks, rootBno, loc'.bno, ino, -1);
    ShrunkLeft(old(v.alloc.Used()), v.alloc.Used(), Foot(loc), Foot(mid), Foot(loc'), rootBno, Merges(v.t, tr, h, x));
    DeletedRoot(v.t, tr, h, x);
    if ParentsOk(old(v.blocks), loc) {
      DeleteParentsExact(old(v.blocks), v.t, loc, tr, h, x);
      RootParents(old(v.blocks), old@Deleted(v.blocks), v.blocks, mid, loc');
    }
  }

  /** The root's own fields are no other node's parent field. */
  lemma RootParents(d: Disk, m: Disk, e: Disk, mid: Loc, loc': Loc)
    requires KeepsParents(d, m, Foot(mid)) && KeepsParents(m, e, FootAll(loc'.kids)) && FootAll(loc'.kids) <= Foot(mid)
    ensures ParentsOk(d, loc') <==> ParentsOk(e, loc')
  {
    hide Foot, FootAll;
    KeepsOn(d, m, e, Foot(mid), Foot(mid), FootAll(loc'.kids));
    ParentsSame(d, e, loc');
  }

  lemma CarriedOver(d: Disk, m: Disk, e: Disk, b: nat, c: nat, ino: nat, delta: int)
    requires SameHeader(d, m, b) && RootCarried(m, b, e, c, ino, delta)
    ensures RootCarried(d, b, e, c, ino, delta)
  {
  }

  lemma DeletedRoot(t: nat, tr: Tree, h: nat, x: nat)
    requires 2 <= t && Shape(t, tr, h) && (0 < h ==> 1 <= |tr.keys|)
    ensures var r := Delete(t, tr, h, x);
            && DeleteTree(t, tr, h, x) == (if r.keys == [] && r.kids != [] then r.kids[0] else r)
            && (DeleteHeight(t, tr, h, x) == h <==> !(r.keys == [] && r.kids != []))
  {
  }

  /** What follows the deletion proper: count it, or change the root. */
  method AdjustRoot(v: Volume, ino: nat, rootBno: nat, ghost mid: Loc, ghost r: Tree, ghost h: nat)
    returns (ghost loc': Loc)
    requires v.Ready() && v.Stored(mid, r) && Shape(v.t, r, h) && rootBno == mid.bno
    modifies v`blocks, v`iBno
    ensures v.Ready() && v.Stored(loc', if r.keys == [] && r.kids != [] then r.kids[0] else r)
    ensures loc'.bno == rootBno <==> !(r.keys == [] && r.kids != [])
    ensures Foot(mid) == Foot(loc') + if loc'.bno == rootBno then {} else {rootBno}
    ensures loc'.bno != rootBno ==> rootBno !in Foot(loc')
    ensures v.iBno == if loc'.bno == rootBno then old(v.iBno) else old(v.iBno)[ino := loc'.bno]
    ensures RootCarried(old(v.blocks), rootBno, v.blocks, loc'.bno, ino, -1)
    ensures Agree(old(v.blocks), v.blocks, v.alloc.Used() - Foot(mid))
    ensures KeepsParents(old(v.blocks), v.blocks, FootAll(loc'.kids)) && FootAll(loc'.kids) <= Foot(mid)
    ensures loc' == mid || (|mid.kids| == 1 && loc' == mid.kids[0])
  {
    hide SetBits, Took, TookAt, Gave, FreeBits, Rep, RepAll, Foot, FootAll, Apart, ApartAll, Shape, Holds;
    NodeOf(v.blocks, v.t, mid, r);
    ShapeKids(v.t, r, h);
    OwnBlock(mid);
    var node := v.blocks[rootBno].node;
    if node.nrOfKeys == 0 && !node.leaf {
      loc' := HandOver(v, ino, rootBno, mid, r, h);
    } else {
      v.blocks := v.blocks[rootBno := TreeBlock(node.(nrOfFiles := (node.nrOfFiles - 1) % U32))];
      RepSameNodes(old(v.blocks), v.blocks, v.t, mid, r);
      FootTrees(old(v.blocks), v.t, mid, r);
      TopApart(mid);
      loc' := mid;
      SameSet(Foot(mid));
    }
  }

  lemma SameSet(s: set<nat>)
    ensures s + {} == s
  {
  }

  lemma ShrunkLeft(u: set<nat>, u': set<nat>, f: set<nat>, m: set<nat>, f': set<nat>, b: nat, n: nat)
    requires Shrunk(u, u', f, m, n) && f <= u && b in f && b in m
    requires m == f' || (b !in f' && m == f' + {b})
    ensures b !in f' ==> Shrunk(u, u', f, f' + {b}, n) && b in u' - f'
    ensures b in f' ==> Shrunk(u, u', f, f', n)
    ensures u - f <= u' - m
  {
  }

  /** The only child becomes the root. */
  method HandOver(v: Volume, ino: nat, rootBno: nat, ghost loc: Loc, ghost tr: Tree, ghost h: nat)
    returns (ghost kid: Loc)
    requires v.Ready() && v.Stored(loc, tr) && 0 < h && Shape(v.t, tr, h) && tr.keys == [] && rootBno == loc.bno
    requires |tr.kids| == 1 == |loc.kids|
    modifies v`blocks, v`iBno
    ensures kid == loc.kids[0] && kid.bno != rootBno && v.Stored(kid, tr.kids[0])
    ensures rootBno !in Foot(kid) && Foot(loc) == Foot(kid) + {rootBno}
    ensures v.iBno == old(v.iBno)[ino := kid.bno]
    ensures RootCarried(old(v.blocks), rootBno, v.blocks, kid.bno, ino, -1)
    ensures Agree(old(v.blocks), v.blocks, v.alloc.Used() - Foot(loc))
    ensures KeepsParents(old(v.blocks), v.blocks, FootAll(kid.kids)) && FootAll(kid.kids) <= Foot(loc)
  {
    hide SetBits, Took, TookAt, Gave, FreeBits, Rep, RepAll, Foot, FootAll, Apart, ApartAll, Shape, Holds;
    NodeOf(v.blocks, v.t, loc, tr);
    FootAt(loc, 0);
    TopApart(loc.kids[0]);
    FootTrees(v.blocks, v.t, loc, tr);
    OnlyKid(loc);
    kid := loc.kids[0];
    NodeOf(v.blocks, v.t, kid, tr.kids[0]);
    var node := v.blocks[rootBno].node;
    var child := node.children[0];
    v.iBno := v.iBno[ino := child];
    var n := v.blocks[child].node;
    v.blocks := v.blocks[child := TreeBlock(n.(nrOfFiles := (node.nrOfFiles - 1) % U32, treeName := node.treeName,
                                               parent := ino, root := true))]
                        [rootBno := TreeBlock(node.(root := false))];
    RepSameNodes(old(v.blocks), v.blocks, v.t, kid, tr.kids[0]);
  }

  lemma OnlyKid(loc: Loc)
    requires |loc.kids| == 1
    ensures Foot(loc) == {loc.bno} + Foot(loc.kids[0]) && FootRest(loc, 0) == {loc.bno}
  {
    FootAt(loc, 0);
    assert loc.kids[..0] == [] && loc.kids[1..] == [];
  }

  /** basicbtfs_btree_free_dir: every block of the tree is released, and no other. */
  method FreeTree(v: Volume, bno: nat, ghost loc: Loc, ghost tr: Tree) returns (ok: bool)
    requires v.Ready() && v.Stored(loc, tr) && bno == loc.bno && 0 !in Foot(loc)
    modifies v.alloc, v.alloc.bits
    ensures v.Ready() && ok && v.alloc.Used() == old(v.alloc.Used()) - Foot(loc)
    ensures v.alloc.nrFree == (old(v.alloc.nrFree) + |Foot(loc)|) % U32
    decreases tr
  {
    hide SetBits, Took, TookAt, Gave, FreeBits, Rep, RepAll, Foot, FootAll, Apart, ApartAll, Holds;
    OwnBlock(loc);
    UsedInside(v.alloc, bno);
    if bno == 0 || bno > v.alloc.bits.Length {
      return false;
    }
    NodeOf(v.blocks, v.t, loc, tr);
    var node := v.blocks[bno].node;
    if !node.leaf {
      var index := 0;
      FootNone();
      while index <= node.nrOfKeys
        invariant index <= |loc.kids| == |tr.kids| == node.nrOfKeys + 1
        invariant v.Ready() && bno in v.alloc.Used()
        invariant v.alloc.Used() == old(v.alloc.Used()) - FootAll(loc.kids[..index])
        invariant v.alloc.nrFree == (old(v.alloc.nrFree) + |FootAll(loc.kids[..index])|) % U32
      {
        FreedKid(v.blocks, v.t, loc, tr, index);
        NodeOf(v.blocks, v.t, loc, tr);
        Counted(old(v.alloc.nrFree), FootAll(loc.kids[..index]), Foot(loc.kids[index]));
        ok := FreeTree(v, node.children[index], loc.kids[index], tr.kids[index]);
        index := index + 1;
      }
      assert loc.kids[..index] == loc.kids;
    }
    FootParts(loc);
    UsedInside(v.alloc, bno);
    Counted(old(v.alloc.nrFree), FootAll(loc.kids), {bno});
    v.alloc.PutBlocks(bno, 1);
    ok := true;
  }

  /** Two disjoint releases count as one. */
  lemma Counted(n: nat, a: set<nat>, b: set<nat>)
    requires a !! b
    ensures |a + b| == |a| + |b|
    ensures ((n + |a|) % U32 + |b|) % U32 == (n + |a + b|) % U32
  {
    ModAdd(n + |a|, |b|);
  }

  lemma ModAdd(x: int, y: int)
    ensures (x % U32 + y) % U32 == (x + y) % U32
  {
  }

  lemma FootNone()
    ensures FootAll([]) == {}
  {
  }

  lemma FootParts(loc: Loc)
    ensures Foot(loc) == FootAll(loc.kids) + {loc.bno} && (loc.kids == [] ==> FootAll(loc.kids) == {})
    ensures Apart(loc) ==> FootAll(loc.kids) !! {loc.bno}
  {
  }

  /** The next child to be released is still whole. */
  lemma FreedKid(d: Disk, t: nat, loc: Loc, tr: Tree, i: nat)
    requires Rep(d, t, loc, tr) && Apart(loc) && i < |loc.kids|
    ensures Apart(loc.kids[i]) && Foot(loc.kids[i]) <= Foot(loc) && loc.bno !in Foot(loc.kids[i])
    ensures Foot(loc.kids[i]) !! FootAll(loc.kids[..i])
    ensures FootAll(loc.kids[..i + 1]) == FootAll(loc.kids[..i]) + Foot(loc.kids[i])
  {
    FootAt(loc, i);
    assert loc.kids[..i + 1] == loc.kids[..i] + [loc.kids[i]];
    FootAppend(loc.kids[..i], [loc.kids[i]]);
    FootOne(loc.kids[i]);
  }

  // ------------------------------------------------------- name blocks

  function Members(bnos: seq<nat>): set<nat> { set b | b in bnos }

  /** The chain of name blocks a directory leads to. */
  ghost predicate NameChain(d: Disk, bnos: seq<nat>) {
    && bnos != [] && 0 !in bnos && (forall i, j | 0 <= i < j < |bnos| :: bnos[i] != bnos[j])
    && forall i | 0 <= i < |bnos| :: bnos[i] in d && d[bnos[i]].NameBlock? && NextIs(d[bnos[i]], bnos, i)
  }

  ghost predicate NextIs(x: Block, bnos: seq<nat>, i: nat)
    requires x.NameBlock?
  {
    x.next == if i + 1 < |bnos| then bnos[i + 1] else 0
  }

  /** basicbtfs_nametree_free_namelist_blocks: the chain is released, block by block. */
  method FreeNamelist(v: Volume, nameBno: nat, ghost bnos: seq<nat>)
    requires v.Ready() && NameChain(v.blocks, bnos) && nameBno == bnos[0] && Members(bnos) <= v.alloc.Used()
    modifies v.alloc, v.alloc.bits
    ensures v.Ready() && v.alloc.Used() == old(v.alloc.Used()) - Members(bnos)
    ensures v.alloc.nrFree == (old(v.alloc.nrFree) + |bnos|) % U32
  {
    hide SetBits, Took, TookAt, Gave, FreeBits, Members, NameChain;
    var cur := nameBno;
    ghost var i: nat := 0;
    ChainFacts(v.blocks, bnos);
    Front(bnos, 0);
    while v.blocks[cur].next != 0
      invariant i < |bnos| && cur == bnos[i] && v.Ready()
      invariant v.alloc.Used() == old(v.alloc.Used()) - Members(bnos[..i])
      invariant v.alloc.nrFree == (old(v.alloc.nrFree) + i) % U32
      decreases |bnos| - i
    {
      ChainNext(v.blocks, bnos, i);
      var next := v.blocks[cur].next;
      FreeNameBlock(v, cur, bnos, i, old(v.alloc.Used()), old(v.alloc.nrFree));
      cur, i := next, i + 1;
    }
    LastInChain(v.blocks, bnos, i);
    Front(bnos, i);
    FreeNameBlock(v, cur, bnos, i, old(v.alloc.Used()), old(v.alloc.nrFree));
  }

  lemma ChainFacts(d: Disk, bnos: seq<nat>)
    requires NameChain(d, bnos)
    ensures bnos != [] && forall i, j | 0 <= i < j < |bnos| :: bnos[i] != bnos[j]
    ensures forall i | 0 <= i < |bnos| :: bnos[i] in d && d[bnos[i]].NameBlock?
  {
  }

  lemma ChainNext(d: Disk, bnos: seq<nat>, i: nat)
    requires NameChain(d, bnos) && i < |bnos| && bnos[i] in d && d[bnos[i]].NameBlock? && d[bnos[i]].next != 0
    ensures i + 1 < |bnos| && d[bnos[i]].next == bnos[i + 1]
  {
    assert NextIs(d[bnos[i]], bnos, i);
  }

  /** put_blocks(sbi, cur_bno, 1), when i blocks of the chain are gone already. */
  method FreeNameBlock(v: Volume, cur: nat, ghost bnos: seq<nat>, ghost i: nat, ghost used: set<nat>, ghost n: nat)
    requires v.Ready() && i < |bnos| && cur == bnos[i] && forall i, j | 0 <= i < j < |bnos| :: bnos[i] != bnos[j]
    requires v.alloc.Used() == used - Members(bnos[..i]) && Members(bnos) <= used && v.alloc.nrFree == (n + i) % U32
    modifies v.alloc, v.alloc.bits
    ensures v.Ready() && v.alloc.Used() == used - Members(bnos[..i + 1]) && v.alloc.nrFree == (n + i + 1) % U32
  {
    hide SetBits, Took, TookAt, Gave, FreeBits, Members;
    Front(bnos, i);
    UsedInside(v.alloc, cur);
    ModAdd(n + i, 1);
    v.alloc.PutBlocks(cur, 1);
  }

  lemma LastInChain(d: Disk, bnos: seq<nat>, i: nat)
    requires NameChain(d, bnos) && i < |bnos| && d[bnos[i]].next == 0
    ensures i + 1 == |bnos|
  {
    assert NextIs(d[bnos[i]], bnos, i);
    assert forall j | 0 <= j < |bnos| :: bnos[j] in bnos;
  }

  lemma Front(bnos: seq<nat>, i: nat)
    requires i < |bnos| && forall i, j | 0 <= i < j < |bnos| :: bnos[i] != bnos[j]
    ensures Members(bnos[..i + 1]) == Members(bnos[..i]) + {bnos[i]} && bnos[i] !in Members(bnos[..i])
    ensures bnos[i] in Members(bnos) && Members([]) == {} && bnos[..0] == [] && bnos[..|bnos|] == bnos
  {
    assert bnos[..i + 1] == bnos[..i] + [bnos[i]];
  }

  lemma MembersSize(bnos: seq<nat>)
    requires forall i, j | 0 <= i < j < |bnos| :: bnos[i] != bnos[j]
    ensures |Members(bnos)| == |bnos|
  {
    if bnos == [] {
      assert Members(bnos) == {};
    } else {
      var rest := bnos[..|bnos| - 1];
      MembersSize(rest);
      Front(bnos, |bnos| - 1);
      assert bnos[..|bnos| - 1 + 1] == bnos;
    }
  }

  /** Removing a directory: its name list and its tree are released, each block once, and no
      other block is. */
  method FreeDirectory(v: Volume, bno: nat, ghost loc: Loc, ghost tr: Tree, ghost bnos: seq<nat>) returns (ok: bool)
    requires v.Ready() && v.Stored(loc, tr) && bno == loc.bno && 0 !in Foot(loc)
    requires NameChain(v.blocks, bnos) && Members(bnos) <= v.alloc.Used() && Foot(loc) !! Members(bnos)
    requires bno in v.blocks && v.blocks[bno].TreeBlock? && v.blocks[bno].node.treeName == bnos[0]
    modifies v.alloc, v.alloc.bits
    ensures ok && v.Ready() && v.alloc.Used() == old(v.alloc.Used()) - (Foot(loc) + Members(bnos))
    ensures v.alloc.nrFree == (old(v.alloc.nrFree) + |Foot(loc) + Members(bnos)|) % U32
  {
    hide SetBits, Took, TookAt, Gave, FreeBits, Rep, Foot, Apart, Members;
    FreeNamelist(v, v.blocks[bno].node.treeName, bnos);
    MembersSize(bnos);
    Counted(old(v.alloc.nrFree), Members(bnos), Foot(loc));
    assert Foot(loc) + Members(bnos) == Members(bnos) + Foot(loc);
    ok := FreeTree(v, bno, loc, tr);
  }
}
