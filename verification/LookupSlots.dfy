/** The lookups as they are written: the slot the scan stops at is compared whether or not it
    holds a key (btree.h). What that does to the answer, exactly. */
module LookupSlots {
  import opened Entries
  import opened BTree
  import opened BTreeRuns
  import opened Blocks
  import opened Bitmap
  import opened StaleSlots
  import opened DiskTree
  import opened DiskDelete

  /** entries[index] of the node structure; one past the last slot lies the beginning of
      the children array. */
  function SlotAt(n: BNode, index: nat): Entry
    requires index <= |n.entries| && 4 <= |n.children|
  {
    if index < |n.entries| then n.entries[index]
    else Entry(n.children[0], n.children[1], n.children[2], n.children[3])
  }

  /** What is taken for an entry: a slot behind the keys, or the first children of a node whose
      slots are all in use. */
  datatype Misreading = Stale(slot: Entry) | Alias(slot: Entry)

  /** The first node on the search path of x, above the one that holds x, all of whose keys are
      below x and whose next slot happens to carry x. */
  ghost function Misread(d: Disk, t: nat, loc: Loc, tr: Tree, x: nat): Option<Misreading>
    requires Rep(d, t, loc, tr) && 2 <= t
    decreases tr
  {
    NodeOf(d, t, loc, tr);
    var i, n := FindKey(tr.keys, x), d[loc.bno].node;
    if i < |tr.keys| && tr.keys[i].hash == x then None
    else if i == |tr.keys| && SlotAt(n, i).hash == x then
      Some(if i < 2 * t - 1 then Stale(SlotAt(n, i)) else Alias(SlotAt(n, i)))
    else if i >= |tr.kids| then None
    else Misread(d, t, loc.kids[i], tr.kids[i], x)
  }

  function InoOf(e: Option<Entry>): nat { if e.Some? then e.value.ino else 0 }

  /** The inode number the unguarded comparison comes to. */
  function AnswerOf(m: Option<Misreading>, e: Option<Entry>): nat {
    if m.Some? then m.value.slot.ino else InoOf(e)
  }

  /** basicbtfs_btree_node_lookup, unguarded, on any stored tree: the answer is right exactly
      when nothing on the way is misread, or what is misread happens to give the same inode. */
  method NodeLookup(v: Volume, bno: nat, hash: nat, ghost loc: Loc, ghost tr: Tree) returns (r: nat)
    requires 2 <= v.t && Rep(v.blocks, v.t, loc, tr) && bno == loc.bno
    ensures r == AnswerOf(Misread(v.blocks, v.t, loc, tr, hash), Lookup(tr, hash))
    ensures r == InoOf(Lookup(tr, hash)) <==>
            var m := Misread(v.blocks, v.t, loc, tr, hash); m.None? || m.value.slot.ino == InoOf(Lookup(tr, hash))
    decreases tr
  {
    hide Rep, Holds;
    NodeOf(v.blocks, v.t, loc, tr);
    var node := v.blocks[bno].node;
    var index := FindKeyLoop(node.entries, node.nrOfKeys, hash);
    var slot := SlotAt(node, index);
    if slot.hash == hash {
      return slot.ino;
    }
    if node.leaf {
      return 0;
    }
    r := NodeLookup(v, node.children[index], hash, loc.kids[index], tr.kids[index]);
  }

  // --------------------------------------------------------- insertions only

  lemma SlotsOf(d: Disk, loc: Loc, tr: Tree, hi: nat)
    requires Clean(d, loc, tr, hi)
    ensures loc.bno in d && d[loc.bno].TreeBlock? && SlotsClean(d[loc.bno].node.entries, |tr.keys|, hi)
  {
  }

  /** The child a search goes to is one it may go to. */
  lemma NextWindow(t: nat, tr: Tree, h: nat, hi: nat, x: nat)
    requires 2 <= t && 0 < h && Shape(t, tr, h) && x < hi
    requires var i := FindKey(tr.keys, x); i < |tr.keys| ==> tr.keys[i].hash != x
    ensures var i := FindKey(tr.keys, x);
            && i < |tr.kids| && x < Bound(tr, i, hi) && Shape(t, tr.kids[i], h - 1) && 1 <= |tr.kids[i].keys|
  {
  }

  /** Where unused slots are clean, an unused slot is never taken for a file. */
  lemma {:induction false} CleanReads(d: Disk, t: nat, loc: Loc, tr: Tree, h: nat, hi: nat, x: nat)
    requires 2 <= t && Rep(d, t, loc, tr) && Shape(t, tr, h) && (0 < h ==> 1 <= |tr.keys|)
    requires Clean(d, loc, tr, hi) && x < hi
    ensures var m := Misread(d, t, loc, tr, x);
            m.Some? && m.value.Stale? ==> m.value.slot == ZERO_ENTRY && Lookup(tr, x).None?
    decreases tr
  {
    hide Rep, Holds, Shape, Clean;
    NodeOf(d, t, loc, tr);
    ShapeKids(t, tr, h);
    SlotsOf(d, loc, tr, hi);
    var i := FindKey(tr.keys, x);
    if !(i < |tr.keys| && tr.keys[i].hash == x) && h > 0 && !(i == |tr.keys| && SlotAt(d[loc.bno].node, i).hash == x) {
      NextWindow(t, tr, h, hi, x);
      CleanKid(d, loc, tr, hi, i);
      CleanReads(d, t, loc.kids[i], tr.kids[i], h - 1, Bound(tr, i, hi), x);
    }
  }

  /** The block of a new directory. */
  lemma FreshDirectory(d: Disk, t: nat, loc: Loc, parent: nat)
    requires 2 <= t && loc.kids == [] && loc.bno in d && d[loc.bno].TreeBlock?
    requires var n := NewNode(t, true, parent); SameNode(d[loc.bno].node, n)
    ensures Rep(d, t, loc, Node([], [])) && Apart(loc) && Foot(loc) == {loc.bno}
    ensures Clean(d, loc, Node([], []), U32) && Flat(Node([], [])) == []
  {
    assert d[loc.bno].node.entries[..0] == [];
  }

  /** Blocks enough for n insertions into a tree of height h. */
  function RunRoom(h: nat, n: nat): nat
    decreases n
  {
    if n == 0 then 0 else h + 2 + RunRoom(h + 1, n - 1)
  }

  lemma {:induction false} RunRoomGrows(h: nat, g: nat, n: nat)
    requires h <= g
    ensures RunRoom(h, n) <= RunRoom(g, n)
    decreases n
  {
    if n > 0 {
      RunRoomGrows(h + 1, g + 1, n - 1);
    }
  }

  /** The entries can be inserted one after the other: their hashes are uint32 values, none is
      there yet, and no two are the same. */
  ghost predicate Insertable(m: map<nat, Entry>, es: seq<Entry>) {
    && (forall i | 0 <= i < |es| :: es[i].hash < U32 && es[i].hash !in m)
    && forall i, j | 0 <= i < j < |es| :: es[i].hash != es[j].hash
  }

  /** The tree of a directory whose unused slots are clean. */
  ghost predicate CleanTree(v: Volume, ino: nat, loc: Loc, tr: Tree, h: nat)
    reads v, v.alloc, v.alloc.bits
  {
    && v.Ready() && v.Stored(loc, tr) && Shape(v.t, tr, h) && (0 < h ==> 1 <= |tr.keys|) && Sorted(Flat(tr))
    && Clean(v.blocks, loc, tr, U32) && ino in v.iBno && v.iBno[ino] == loc.bno
  }

  /** Any number of insertions through the root. */
  method InsertAll(v: Volume, ino: nat, es: seq<Entry>, ghost loc: Loc, ghost tr: Tree, ghost h: nat)
    returns (ghost loc': Loc, ghost tr': Tree, ghost h': nat)
    requires CleanTree(v, ino, loc, tr, h) && Insertable(Dict(Flat(tr)), es) && RunRoom(h, |es|) <= |v.alloc.Free()|
    modifies v`blocks, v`iBno, v.alloc, v.alloc.bits
    ensures CleanTree(v, ino, loc', tr', h') && Dict(Flat(tr')) == Dict(Flat(tr)) + Dict(es)
    decreases |es|
  {
    hide SetBits, FreeBits, Took, TookAt, Gave, Rep, RepAll, Foot, FootAll, Apart, Shape, Holds, Sorted, Flat, Clean,
         InsertTree, Splits, RootCarried;
    loc', tr', h' := loc, tr, h;
    if es != [] {
      var e := es[0];
      DictKeys(Flat(tr), e.hash);
      RoomEnough(v.t, tr, h, e);
      InsertTreeFlat(v.t, tr, h, e);
      InsertIsUpdate(Flat(tr), e);
      var ok;
      ok, loc' := v.NodeInsert(ino, v.iBno[ino], e, loc, tr, h);
      tr', h' := InsertTree(v.t, tr, h, e), InsertHeight(v.t, tr, h);
      RunRoomGrows(h', h + 1, |es| - 1);
      RestInsertable(Dict(Flat(tr)), es);
      loc', tr', h' := InsertAll(v, ino, es[1..], loc', tr', h');
      MergeRest(Dict(Flat(tr)), es);
    } else {
      assert Dict(Flat(tr)) + map[] == Dict(Flat(tr));
    }
  }

  /** In every run made of insertions only, starting with a new directory, the unguarded lookup
      gives the inode of the entry inserted under the hash, or 0 if there is none, exactly
      unless a full node on the way is misread and that number happens to differ. */
  method InsertsThenLookup(v: Volume, ino: nat, es: seq<Entry>, x: nat, ghost loc: Loc)
    returns (r: nat, ghost misread: Option<Misreading>)
    requires v.Ready() && loc.kids == [] && ino in v.iBno && v.iBno[ino] == loc.bno && loc.bno in v.alloc.Used()
    requires loc.bno in v.blocks && v.blocks[loc.bno].TreeBlock?
    requires SameNode(v.blocks[loc.bno].node, NewNode(v.t, true, ino))
    requires Insertable(map[], es) && RunRoom(0, |es|) <= |v.alloc.Free()| && x < U32
    modifies v`blocks, v`iBno, v.alloc, v.alloc.bits
    ensures misread.Some? ==> misread.value.Alias?
    ensures r == AnswerOf(misread, MapGet(Dict(es), x))
    ensures r == InoOf(MapGet(Dict(es), x)) <==> misread.None? || misread.value.slot.ino == InoOf(MapGet(Dict(es), x))
  {
    hide SetBits, FreeBits, Rep, RepAll, Foot, FootAll, Apart, Holds, Sorted, Flat, Clean, NewNode;
    FreshDirectory(v.blocks, v.t, loc, ino);
    ghost var loc', tr, h;
    FreshShape(v.t);
    loc', tr, h := InsertAll(v, ino, es, loc, Node([], []), 0);
    assert Dict([]) + Dict(es) == Dict(es);
    LookupIsFind(v.t, tr, h, x);
    FindIsDict(Flat(tr), x);
    misread := Misread(v.blocks, v.t, loc', tr, x);
    CleanReads(v.blocks, v.t, loc', tr, h, U32, x);
    if misread.Some? && misread.value.Stale? {
      misread := None;
    }
    r := NodeLookup(v, v.iBno[ino], x, loc', tr);
  }

  lemma FreshShape(t: nat)
    requires 2 <= t
    ensures Shape(t, Node([], []), 0) && Sorted([])
  {
  }

  lemma RestInsertable(m: map<nat, Entry>, es: seq<Entry>)
    requires es != [] && Insertable(m, es)
    ensures Insertable(m[es[0].hash := es[0]], es[1..])
  {
    assert forall i | 0 <= i < |es| - 1 :: es[1..][i] == es[i + 1];
  }

  lemma MergeRest(m: map<nat, Entry>, es: seq<Entry>)
    requires es != [] && Insertable(m, es)
    ensures m[es[0].hash := es[0]] + Dict(es[1..]) == m + Dict(es)
  {
    assert Absent(es[1..], es[0].hash);
    DictKeys(es[1..], es[0].hash);
  }

  // -------------------------------------------------------- after a deletion

  /** After key i is taken out of a leaf, its hash is misread in that leaf exactly when it was
      the last key, and is then found as if it were still there. */
  lemma DeletedStillFound(d: Disk, e: Disk, t: nat, loc: Loc, tr: Tree, i: nat)
    requires 2 <= t && Rep(d, t, loc, tr) && tr.kids == [] && Sorted(tr.keys) && i < |tr.keys|
    requires Rep(e, t, loc, Node(tr.keys[..i] + tr.keys[i + 1..], []))
    requires ShiftedOut(d[loc.bno].node.entries, |tr.keys|, i, e[loc.bno].node.entries)
    ensures Misread(e, t, loc, Node(tr.keys[..i] + tr.keys[i + 1..], []), tr.keys[i].hash)
            == if i == |tr.keys| - 1 then Some(Stale(tr.keys[i])) else None
    ensures Lookup(Node(tr.keys[..i] + tr.keys[i + 1..], []), tr.keys[i].hash) == None
  {
    hide Rep, Holds;
    NodeOf(d, t, loc, tr);
    NodeOf(e, t, loc, Node(tr.keys[..i] + tr.keys[i + 1..], []));
    assert d[loc.bno].node.entries[..|tr.keys|][i] == d[loc.bno].node.entries[i];
    FindKeyUnique(tr.keys[..i] + tr.keys[i + 1..], tr.keys[i].hash, i);
  }

  /** basicbtfs_btree_node_remove_from_leaf and the unguarded lookup of the same hash: the
      deleted file is still found exactly when its entry was the last one of the leaf. */
  method RemoveThenLookup(v: Volume, bno: nat, index: nat, ghost loc: Loc, ghost tr: Tree) returns (r: nat)
    requires v.Ready() && v.Stored(loc, tr) && tr.kids == [] && index < |tr.keys| && bno == loc.bno && Sorted(tr.keys)
    modifies v`blocks
    ensures v.Stored(loc, Node(tr.keys[..index] + tr.keys[index + 1..], []))
    ensures r == if index == |tr.keys| - 1 then tr.keys[index].ino else 0
  {
    hide Rep, Holds, Foot, Apart;
    NodeOf(v.blocks, v.t, loc, tr);
    var hash := v.blocks[bno].node.entries[..v.blocks[bno].node.nrOfKeys][index].hash;
    RemoveFromLeaf(v, bno, index, loc, tr);
    DeletedStillFound(old(v.blocks), v.blocks, v.t, loc, tr, index);
    r := NodeLookup(v, bno, hash, loc, Node(tr.keys[..index] + tr.keys[index + 1..], []));
  }
}
