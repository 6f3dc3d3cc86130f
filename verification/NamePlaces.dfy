/** Telling the tree where a name record lies now (basicbtfs_btree_node_update_namelist_info). */
module NamePlaces {
  import opened Entries
  import opened BTree
  import opened Blocks
  import opened DiskTree
  import opened DiskDelete
  import opened NameCompact
  import opened Wording

  function PlacedAt(e: Entry, p: Place): Entry { e.(nameBno := p.bno, blockIndex := p.index) }

  /** The tree with the place of hash x changed. */
  function SetPlace(tr: Tree, x: nat, p: Place): Tree {
    var i := FindKey(tr.keys, x);
    if i < |tr.keys| && tr.keys[i].hash == x then Node(tr.keys[i := PlacedAt(tr.keys[i], p)], tr.kids)
    else if i < |tr.kids| then Node(tr.keys, tr.kids[i := SetPlace(tr.kids[i], x, p)])
    else tr
  }

  /** The same on the sequence of entries. */
  function SetPlaceIn(s: seq<Entry>, x: nat, p: Place): (r: seq<Entry>)
    ensures |r| == |s| && forall i | 0 <= i < |s| :: r[i] == if s[i].hash == x then PlacedAt(s[i], p) else s[i]
  {
    seq(|s|, i requires 0 <= i < |s| => if s[i].hash == x then PlacedAt(s[i], p) else s[i])
  }

  lemma SetPlaceParts(l: seq<Entry>, m: seq<Entry>, r: seq<Entry>, x: nat, p: Place)
    requires Absent(l, x) && Absent(r, x)
    ensures SetPlaceIn(l + m + r, x, p) == l + SetPlaceIn(m, x, p) + r
  {
  }

  lemma {:induction false} SetPlaceFlat(t: nat, tr: Tree, h: nat, x: nat, p: Place)
    requires 2 <= t && Shape(t, tr, h) && Sorted(Flat(tr))
    ensures Flat(SetPlace(tr, x, p)) == SetPlaceIn(Flat(tr), x, p)
    decreases tr
  {
    hide Flat, Sorted, SetPlaceIn, Before, After;
    ShapeKids(t, tr, h);
    var i := FindKey(tr.keys, x);
    if i < |tr.keys| && tr.keys[i].hash == x {
      if h == 0 {
        LeafPlace(tr, i, x, p);
      } else {
        KeyPlace(tr, i, p);
      }
    } else if h == 0 {
      LeafNoPlace(tr, x, p);
    } else {
      SearchWindow(tr, i, x);
      KidSorted(tr, i);
      SetPlaceFlat(t, tr.kids[i], h - 1, x, p);
      FlatAt(tr, i);
      FlatReplace(tr, i, SetPlace(tr.kids[i], x, p));
      SetPlaceParts(Before(tr, i), Flat(tr.kids[i]), After(tr, i), x, p);
    }
  }

  lemma LeafPlace(tr: Tree, i: nat, x: nat, p: Place)
    requires tr.kids == [] && i < |tr.keys| && tr.keys[i].hash == x && Sorted(Flat(tr))
    ensures Flat(Node(tr.keys[i := PlacedAt(tr.keys[i], p)], [])) == SetPlaceIn(Flat(tr), x, p)
  {
    hide Flat;
    LeafFlat(tr);
    LeafFlat(Node(tr.keys[i := PlacedAt(tr.keys[i], p)], []));
  }

  lemma LeafNoPlace(tr: Tree, x: nat, p: Place)
    requires tr.kids == [] && Sorted(Flat(tr))
    requires var i := FindKey(tr.keys, x); i < |tr.keys| ==> tr.keys[i].hash != x
    ensures Flat(tr) == SetPlaceIn(Flat(tr), x, p)
  {
    hide Flat;
    LeafFlat(tr);
    LeafFind(tr.keys, x);
    FindAbsent(tr.keys, x);
  }

  lemma KeyPlace(tr: Tree, i: nat, p: Place)
    requires |tr.kids| == |tr.keys| + 1 && i < |tr.keys| && Sorted(Flat(tr))
    ensures Flat(Node(tr.keys[i := PlacedAt(tr.keys[i], p)], tr.kids)) == SetPlaceIn(Flat(tr), tr.keys[i].hash, p)
  {
    hide Flat, Sorted, SetPlaceIn, Before, After;
    var e := PlacedAt(tr.keys[i], p);
    KeyWindow(tr, i);
    FlatWithPair(tr, i, tr.kids[i], e, tr.kids[i + 1]);
    assert tr.kids[i := tr.kids[i]][i + 1 := tr.kids[i + 1]] == tr.kids;
    var l, r := Before(tr, i) + Flat(tr.kids[i]), Flat(tr.kids[i + 1]) + After(tr, i + 1);
    SetPlaceParts(l, [tr.keys[i]], r, tr.keys[i].hash, p);
    OnePlace(tr.keys[i], p);
    assert Before(tr, i) + (Flat(tr.kids[i]) + [e] + Flat(tr.kids[i + 1])) + After(tr, i + 1) == l + [e] + r;
  }

  lemma OnePlace(e: Entry, p: Place)
    ensures SetPlaceIn([e], e.hash, p) == [PlacedAt(e, p)]
  {
  }

  lemma {:induction false} SetPlaceDict(s: seq<Entry>, x: nat, p: Place)
    requires Sorted(s)
    ensures Sorted(SetPlaceIn(s, x, p))
    ensures Dict(SetPlaceIn(s, x, p)) == if x in Dict(s) then Dict(s)[x := PlacedAt(Dict(s)[x], p)] else Dict(s)
  {
    if s != [] {
      SetPlaceDict(s[1..], x, p);
      assert SetPlaceIn(s, x, p)[1..] == SetPlaceIn(s[1..], x, p);
      DictKeys(s[1..], s[0].hash);
    }
  }

  /** basicbtfs_btree_node_update_namelist_info, with the bound on index that delete has. */
  method UpdateNamelistInfo(v: Volume, bno: nat, hash: nat, p: Place, ghost loc: Loc, ghost tr: Tree) returns (ok: bool)
    requires Rep(v.blocks, v.t, loc, tr) && Apart(loc) && bno == loc.bno
    modifies v`blocks
    ensures ok <==> Lookup(tr, hash).Some?
    ensures Rep(v.blocks, v.t, loc, SetPlace(tr, hash, p))
    ensures v.blocks.Keys == old(v.blocks).Keys
            && forall b | b in v.blocks && b !in Foot(loc) :: v.blocks[b] == old(v.blocks)[b]
    ensures forall b | b in v.blocks :: Reworded(old(v.blocks)[b], v.blocks[b])
    decreases tr
  {
    hide Rep, Holds, Apart, Foot, FootRest, Reworded;
    AllReworded(v.blocks);
    NodeOf(v.blocks, v.t, loc, tr);
    OwnBlock(loc);
    var node := v.blocks[bno].node;
    var index := FindKeyLoop(node.entries, node.nrOfKeys, hash);
    if index < node.nrOfKeys && node.entries[index].hash == hash {
      var e := node.entries[index];
      ghost var d := v.blocks;
      v.blocks := v.blocks[bno := TreeBlock(node.(entries := node.entries[index := PlacedAt(e, p)]))];
      KeyRewritten(d, v.blocks, v.t, loc, tr, index, PlacedAt(e, p));
      PlaceReworded(node, index, p);
      return true;
    }
    if node.leaf {
      return false;
    }
    FootAt(loc, index);
    ok := UpdateNamelistInfo(v, node.children[index], hash, p, loc.kids[index], tr.kids[index]);
    RepReplace(old(v.blocks), v.blocks, v.t, loc, tr, index, loc.kids[index], SetPlace(tr.kids[index], hash, p));
    assert loc.(kids := loc.kids[index := loc.kids[index]]) == loc;
  }

  lemma AllReworded(d: Disk)
    ensures forall b | b in d :: Reworded(d[b], d[b])
  {
  }

  lemma PlaceReworded(n: BNode, i: nat, p: Place)
    requires i < |n.entries|
    ensures Reworded(TreeBlock(n), TreeBlock(n.(entries := n.entries[i := PlacedAt(n.entries[i], p)])))
  {
  }

  lemma KeyRewritten(d: Disk, e: Disk, t: nat, loc: Loc, tr: Tree, i: nat, k: Entry)
    requires Rep(d, t, loc, tr) && Apart(loc) && i < |tr.keys|
    requires e == d[loc.bno := TreeBlock(d[loc.bno].node.(entries := d[loc.bno].node.entries[i := k]))]
    ensures Rep(e, t, loc, Node(tr.keys[i := k], tr.kids))
  {
    hide FootAll, ApartAll;
    RepAllFrame(d, e, t, loc.kids, tr.kids);
    assert d[loc.bno].node.entries[i := k][..|tr.keys|] == d[loc.bno].node.entries[..|tr.keys|][i := k];
  }
}
