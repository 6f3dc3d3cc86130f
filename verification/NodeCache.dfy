/** The in-memory mirror of a directory's tree (cache.h, btreecache.h): nodes on the heap that
    point at each other, a list of all of them with the root at its head, and a counter. Every
    routine is proved to carry out the tree operation of the same name on the nodes it may
    touch, and to keep list, heap and counter in step. */
module NodeCache {
  import opened Entries
  import opened BTree
  import opened BTreeDelete
  import opened BTreeRuns
  import opened Blocks
  import opened SlotLoops
  import opened Parents
  import opened Room
  import opened DiskTree
  import opened DeleteLayout
  import opened DiskDelete
  import opened LookupSlots

  // ------------------------------------------------------------------ lists

  ghost predicate Once(s: seq<nat>) { forall i, j | 0 <= i < j < |s| :: s[i] != s[j] }

  /** list_del */
  function Without(s: seq<nat>, b: nat): seq<nat> {
    if s == [] then [] else if s[0] == b then s[1..] else [s[0]] + Without(s[1..], b)
  }

  lemma {:induction false} WithoutIs(s: seq<nat>, b: nat)
    requires Once(s) && b in s
    ensures Once(Without(s, b)) && |Without(s, b)| == |s| - 1
    ensures forall x :: x in Without(s, b) <==> x in s && x != b
    ensures s[0] != b ==> Without(s, b) != [] && Without(s, b)[0] == s[0]
  {
    var rest := s[1..];
    assert s == [s[0]] + rest && forall i | 0 <= i < |rest| :: rest[i] == s[i + 1];
    if s[0] == b {
    } else {
      WithoutIs(rest, b);
      var r := Without(rest, b);
      forall i | 0 <= i < |r|
        ensures r[i] != s[0]
      {
        assert r[i] in r;
      }
    }
  }

  /** Room for one more node can always be found on the heap. */
  lemma Spare(s: set<nat>) returns (b: nat)
    ensures b !in s && b != 0
  {
    if s == {} {
      b := 1;
    } else {
      var m := Largest(s);
      b := m + 1;
    }
  }

  lemma Largest(s: set<nat>) returns (m: nat)
    requires s != {}
    ensures m in s && forall x | x in s :: x <= m
    decreases |s|
  {
    m :| m in s;
    var rest := s - {m};
    if rest != {} {
      var k := Largest(rest);
      assert forall x | x in s :: x == m || x in rest;
      if k > m { m := k; }
    }
  }

  // ------------------------------------------------------------ reachability

  /** A way down the tree: every address is a child pointer in use of the one before. */
  ghost predicate Path(d: Disk, p: seq<nat>) {
    && p != []
    && forall i | 0 <= i < |p| - 1 :: ChildOf(d, p[i], p[i + 1])
  }

  ghost predicate ChildOf(d: Disk, b: nat, c: nat) {
    && b in d && d[b].TreeBlock? && !d[b].node.leaf
    && exists k | 0 <= k <= d[b].node.nrOfKeys < |d[b].node.children| :: d[b].node.children[k] == c
  }

  ghost predicate Reachable(d: Disk, from: nat, b: nat) { exists p :: Path(d, p) && p[0] == from && p[|p| - 1] == b }

  /** The nodes of a stored tree are the nodes reachable from its root. */
  lemma {:induction false} FootReachable(d: Disk, t: nat, loc: Loc, tr: Tree, b: nat)
    requires Rep(d, t, loc, tr) && b in Foot(loc)
    ensures Reachable(d, loc.bno, b)
    decreases loc
  {
    if b == loc.bno {
      assert Path(d, [b]);
    } else {
      var i := KidWith(loc.kids, b);
      KidPointer(d, t, loc, tr, i);
      FootReachable(d, t, loc.kids[i], tr.kids[i], b);
      var p :| Path(d, p) && p[0] == loc.kids[i].bno && p[|p| - 1] == b;
      var q := [loc.bno] + p;
      assert forall k | 0 <= k < |q| - 1 :: ChildOf(d, q[k], q[k + 1]) by {
        forall k | 0 <= k < |q| - 1
          ensures ChildOf(d, q[k], q[k + 1])
        {
          if k > 0 { assert q[k] == p[k - 1] && q[k + 1] == p[k]; }
        }
      }
      assert Path(d, q) && q[0] == loc.bno && q[|q| - 1] == b;
    }
  }

  lemma {:induction false} KidWith(locs: seq<Loc>, b: nat) returns (i: nat)
    requires b in FootAll(locs)
    ensures i < |locs| && b in Foot(locs[i])
  {
    if b in Foot(locs[0]) {
      i := 0;
    } else {
      i := KidWith(locs[1..], b);
      i := i + 1;
    }
  }

  lemma KidPointer(d: Disk, t: nat, loc: Loc, tr: Tree, i: nat)
    requires Rep(d, t, loc, tr) && i < |loc.kids|
    ensures |loc.kids| == |tr.kids| && Rep(d, t, loc.kids[i], tr.kids[i]) && ChildOf(d, loc.bno, loc.kids[i].bno)
  {
    NodeOf(d, t, loc, tr);
    assert d[loc.bno].node.children[i] == loc.kids[i].bno;
  }

  lemma {:induction false} ReachableFoot(d: Disk, t: nat, loc: Loc, tr: Tree, p: seq<nat>)
    requires Rep(d, t, loc, tr) && Path(d, p) && p[0] == loc.bno
    ensures p[|p| - 1] in Foot(loc)
    decreases |p|
  {
    if |p| > 1 {
      NodeOf(d, t, loc, tr);
      assert ChildOf(d, p[0], p[1]);
      var k: nat :| k <= d[loc.bno].node.nrOfKeys && d[loc.bno].node.children[k] == p[1];
      var rest := p[1..];
      forall i | 0 <= i < |rest| - 1
        ensures ChildOf(d, rest[i], rest[i + 1])
      {
        assert ChildOf(d, p[i + 1], p[i + 1 + 1]);
      }
      ReachableFoot(d, t, loc.kids[k], tr.kids[k], rest);
      FootMember(loc.kids, k);
    }
  }

  // ------------------------------------------------------------- bookkeeping

  /** n nodes have come to the end of the list. */
  ghost predicate Grew(was: Disk, nodes: seq<nat>, now: Disk, nodes': seq<nat>, n: nat) {
    was.Keys <= now.Keys && |nodes'| == |nodes| + n && nodes <= nodes'
  }

  lemma GrewTwice(d: Disk, a: seq<nat>, e: Disk, b: seq<nat>, f: Disk, c: seq<nat>, n: nat, m: nat, foot: set<nat>,
                  mid: set<nat>, foot': set<nat>)
    requires Grew(d, a, e, b, n) && Grew(e, b, f, c, m)
    requires mid == foot + (e.Keys - d.Keys) && foot' == mid + (f.Keys - e.Keys)
    ensures Grew(d, a, f, c, n + m) && foot' == foot + (f.Keys - d.Keys)
  {
  }

  /** n nodes have left the list, all of them of the footprint; if the head is still there, it is
      still the head. */
  ghost predicate Lost(was: Disk, nodes: seq<nat>, now: Disk, nodes': seq<nat>, foot: set<nat>, foot': set<nat>,
                       n: nat) {
    && now.Keys <= was.Keys && |nodes'| == |nodes| - n
    && was.Keys - now.Keys <= foot && foot' == foot - (was.Keys - now.Keys)
    && (nodes != [] && nodes[0] in now ==> nodes' != [] && nodes'[0] == nodes[0])
  }

  lemma LostNone(d: Disk, e: Disk, a: seq<nat>, foot: set<nat>)
    requires d.Keys == e.Keys
    ensures Lost(d, a, e, a, foot, foot, 0)
  {
  }

  lemma LostTwice(d: Disk, a: seq<nat>, e: Disk, b: seq<nat>, f: Disk, c: seq<nat>, foot: set<nat>, mid: set<nat>,
                  foot': set<nat>, n: nat, m: nat)
    requires Lost(d, a, e, b, foot, mid, n) && Lost(e, b, f, c, mid, foot', m)
    ensures Lost(d, a, f, c, foot, foot', n + m) && d.Keys - foot <= e.Keys - mid
  {
    assert d.Keys - f.Keys == (d.Keys - e.Keys) + (e.Keys - f.Keys);
    assert foot' == foot - (d.Keys - f.Keys);
  }

  // --------------------------------------------------------------- the cache

  /** What the nodes are: one directory's nodes, its list of them, its cached name blocks. */
  class DirCache {
    const t: nat
    /** The nodes by address. */
    var heap: Disk
    /** root_node_cache->list, head first. */
    var nodes: seq<nat>
    /** name_tree_cache->list, head first: the numbers of the cached blocks. */
    var nameBlocks: seq<nat>
    var nrOfBlocks: int

    /** basicbtfs_cache_add_dir, with the node of an empty directory. */
    constructor (t: nat, root: nat, nameBno: nat)
      requires 2 <= t
      ensures this.t == t && InStep() && Under(Loc(root, []), Node([], [])) && nodes == [root]
              && nameBlocks == [nameBno]
    {
      this.t := t;
      heap := map[root := TreeBlock(NewNode(t, true, 0))];
      nodes := [root];
      nameBlocks := [nameBno];
      nrOfBlocks := 5;
      new;
      assert heap[root].node.entries[..0] == [];
    }

    /** The list names exactly the nodes on the heap, each once, and the counter counts. */
    ghost predicate InStep()
      reads this
    {
      2 <= t && Once(nodes) && (forall b :: b in nodes <==> b in heap) && nrOfBlocks == |nodes| + |nameBlocks| + 3
    }

    /** The tree tr lies at loc, on nodes of its own. */
    ghost predicate Under(loc: Loc, tr: Tree)
      reads this
    {
      Rep(heap, t, loc, tr) && Apart(loc) && Foot(loc) <= heap.Keys
    }

    /** The whole cache: the tree takes all nodes, and its root is at the head of the list. */
    ghost predicate Mirrors(loc: Loc, tr: Tree)
      reads this
    {
      InStep() && Under(loc, tr) && Foot(loc) == heap.Keys && nodes != [] && nodes[0] == loc.bno
    }

    /** basicbtfs_alloc_file and basicbtfs_cache_add_node: a new node, at the end of the list. */
    method AddNode(n: BNode) returns (b: nat)
      requires InStep()
      modifies this`heap, this`nodes, this`nrOfBlocks
      ensures InStep() && b !in old(heap) && heap == old(heap)[b := TreeBlock(n)] && nodes == old(nodes) + [b]
    {
      ghost var free := Spare(heap.Keys);
      b :| b !in heap.Keys && b != 0;
      heap := heap[b := TreeBlock(n)];
      nodes := nodes + [b];
      nrOfBlocks := nrOfBlocks + 1;
    }

    /** basicbtfs_cache_delete_node */
    method DeleteNode(b: nat)
      requires InStep() && b in heap
      modifies this`heap, this`nodes, this`nrOfBlocks
      ensures InStep() && heap == old(heap) - {b} && |nodes| == |old(nodes)| - 1
      ensures old(nodes)[0] != b ==> nodes != [] && nodes[0] == old(nodes)[0]
    {
      WithoutIs(nodes, b);
      nrOfBlocks := nrOfBlocks - 1;
      nodes := Without(nodes, b);
      heap := heap - {b};
    }

    /** basicbtfs_cache_update_root_node: the node goes to the head of the list. */
    method UpdateRootNode(b: nat)
      requires InStep() && b in heap
      modifies this`nodes
      ensures InStep() && |nodes| == |old(nodes)| && nodes[0] == b
    {
      WithoutIs(nodes, b);
      nodes := [b] + Without(nodes, b);
    }

    /** basicbtfs_cache_add_name_block */
    method AddNameBlock(bno: nat)
      requires InStep()
      modifies this`nameBlocks, this`nrOfBlocks
      ensures InStep() && nameBlocks == [bno] + old(nameBlocks)
    {
      nameBlocks := [bno] + nameBlocks;
      nrOfBlocks := nrOfBlocks + 1;
    }

    // ------------------------------------------------------------- insertion

    /** basicbtfs_btree_cache_split_child */
    method SplitChild(par: nat, lhs: nat, index: nat, ghost loc: Loc, ghost tr: Tree, ghost h: nat) returns (rhs: nat)
      requires InStep() && Under(loc, tr) && 0 < h && Shape(t, tr, h) && |tr.keys| < 2 * t - 1
      requires index < |tr.kids| == |loc.kids| && |tr.kids[index].keys| == 2 * t - 1
      requires par == loc.bno && lhs == loc.kids[index].bno
      modifies this`heap, this`nodes, this`nrOfBlocks
      ensures InStep() && rhs !in old(heap) && nodes == old(nodes) + [rhs] && heap.Keys == old(heap).Keys + {rhs}
      ensures Under(SplitLoc(t, loc, index, rhs), BTree.SplitChild(t, tr, index))
      ensures Foot(SplitLoc(t, loc, index, rhs)) == Foot(loc) + {rhs}
      ensures Agree(old(heap), heap, old(heap).Keys - {par, lhs})
    {
      hide Rep, RepAll, Foot, FootAll, Apart, Shape, Holds, SplitLoc, BTree.SplitChild, LowLoc, HighLoc, LowHalf,
           HighHalf, Once;
      NodeOf(heap, t, loc, tr);
      NodeOf(heap, t, loc.kids[index], tr.kids[index]);
      FootAt(loc, index);
      ghost var before := heap;
      var nodePar, nodeLhs := heap[par].node, heap[lhs].node;
      rhs := AddNode(NewNode(t, nodeLhs.leaf, 0));
      var newPar, nodeRhs := SplitNodes(t, nodePar, nodeLhs, index, 0, rhs);
      heap := heap[lhs := TreeBlock(nodeLhs.(nrOfKeys := t - 1))][rhs := TreeBlock(nodeRhs)][par := TreeBlock(newPar)];
      HoldsHigh(t, nodeLhs, loc.kids[index], tr.kids[index], nodeRhs, rhs);
      HoldsLow(t, nodeLhs, loc.kids[index], tr.kids[index]);
      HoldsSplit(t, nodePar, loc, tr, newPar, index, rhs);
      RepSplit(before, heap, t, loc, tr, h, index, rhs);
      SplitApart(t, loc, index, rhs);
    }

    /** basicbtfs_btree_cache_insert_non_full */
    method InsertNonFullAt(bno: nat, e: Entry, ghost loc: Loc, ghost tr: Tree, ghost h: nat) returns (ghost loc': Loc)
      requires InStep() && Under(loc, tr) && Shape(t, tr, h) && |tr.keys| < 2 * t - 1 && bno == loc.bno
      modifies this`heap, this`nodes, this`nrOfBlocks
      ensures InStep() && loc'.bno == bno && Under(loc', InsertNonFull(t, tr, h, e))
      ensures Grew(old(heap), old(nodes), heap, nodes, Splits(t, tr, h, e))
      ensures Foot(loc') == Foot(loc) + (heap.Keys - old(heap).Keys)
      ensures Agree(old(heap), heap, old(heap).Keys - Foot(loc))
      decreases h, 1
    {
      hide Rep, RepAll, Foot, FootAll, Apart, Shape, Holds, Descend, Once;
      NodeOf(heap, t, loc, tr);
      ShapeKids(t, tr, h);
      OwnBlock(loc);
      if heap[bno].node.leaf {
        loc' := loc;
        InsertIntoLeaf(bno, e, loc, tr);
      } else {
        ghost var (s, j) := Descend(t, tr, e);
        DescendShape(t, tr, h, e);
        ghost var mid;
        var child;
        child, mid := OpenChild(bno, e, loc, tr, h);
        label Open:
        NodeOf(heap, t, mid, s);
        loc' := InsertIntoChild(child, e, mid, s, h, j);
        GrewTwice(old(heap), old(nodes), old@Open(heap), old@Open(nodes), heap, nodes,
                  if s == tr then 0 else 1, Splits(t, s.kids[j], h - 1, e), Foot(loc), Foot(mid), Foot(loc'));
      }
    }

    method InsertIntoLeaf(bno: nat, e: Entry, ghost loc: Loc, ghost tr: Tree)
      requires InStep() && Under(loc, tr) && tr.kids == [] && |tr.keys| < 2 * t - 1 && bno == loc.bno
      modifies this`heap
      ensures var i := InsertPos(tr.keys, e.hash); Under(loc, Node(tr.keys[..i] + [e] + tr.keys[i..], []))
      ensures InStep() && heap.Keys == old(heap).Keys && Agree(old(heap), heap, old(heap).Keys - {bno})
    {
      hide Rep, RepAll, Holds, Foot, Apart, Once;
      NodeOf(heap, t, loc, tr);
      var node := heap[bno].node;
      var es, i := MakeRoom(node.entries, node.nrOfKeys, e.hash);
      HoldsLeafInsert(t, node, loc, tr, es[i := e], i, e);
      heap := heap[bno := TreeBlock(node.(entries := es[i := e], nrOfKeys := node.nrOfKeys + 1))];
      LeafRep(heap, t, loc, Node(tr.keys[..i] + [e] + tr.keys[i..], []));
    }

    /** The child an entry goes to, split first if it is full. */
    method OpenChild(bno: nat, e: Entry, ghost loc: Loc, ghost tr: Tree, ghost h: nat)
      returns (child: nat, ghost mid: Loc)
      requires InStep() && Under(loc, tr) && 0 < h && Shape(t, tr, h) && |tr.keys| < 2 * t - 1 && bno == loc.bno
      requires |tr.kids| == |tr.keys| + 1
      modifies this`heap, this`nodes, this`nrOfBlocks
      ensures InStep() && mid.bno == bno && Under(mid, Descend(t, tr, e).0)
      ensures Descend(t, tr, e).1 < |mid.kids| && child == mid.kids[Descend(t, tr, e).1].bno
      ensures Grew(old(heap), old(nodes), heap, nodes, if Descend(t, tr, e).0 == tr then 0 else 1)
      ensures Foot(mid) == Foot(loc) + (heap.Keys - old(heap).Keys)
      ensures Agree(old(heap), heap, old(heap).Keys - Foot(loc))
    {
      hide Rep, RepAll, Foot, FootAll, Apart, Shape, Holds, SplitLoc, BTree.SplitChild, FootRest, InsertPos, Once;
      NodeOf(heap, t, loc, tr);
      ShapeKids(t, tr, h);
      DescendShape(t, tr, h, e);
      OwnBlock(loc);
      var node := heap[bno].node;
      var index := ScanDown(node.entries, node.nrOfKeys, e.hash);
      child := node.children[index];
      NodeOf(heap, t, loc.kids[index], tr.kids[index]);
      mid := loc;
      if heap[child].node.nrOfKeys == 2 * t - 1 {
        SplitKeyCount(t, tr, index);
        FootAt(loc, index);
        var rhs := SplitChild(bno, child, index, loc, tr, h);
        mid := SplitLoc(t, loc, index, rhs);
        SplitLocBno(t, loc, index, rhs);
        NodeOf(heap, t, mid, BTree.SplitChild(t, tr, index));
        node := heap[bno].node;
        if node.entries[index].hash < e.hash {
          index := index + 1;
        }
        child := node.children[index];
      }
    }

    method InsertIntoChild(child: nat, e: Entry, ghost mid: Loc, ghost s: Tree, ghost h: nat, ghost j: nat)
      returns (ghost loc': Loc)
      requires InStep() && Under(mid, s) && 0 < h && j < |s.kids| == |mid.kids| && child == mid.kids[j].bno
      requires Shape(t, s.kids[j], h - 1) && |s.kids[j].keys| < 2 * t - 1
      modifies this`heap, this`nodes, this`nrOfBlocks
      ensures InStep() && loc'.bno == mid.bno
      ensures Under(loc', Node(s.keys, s.kids[j := InsertNonFull(t, s.kids[j], h - 1, e)]))
      ensures Grew(old(heap), old(nodes), heap, nodes, Splits(t, s.kids[j], h - 1, e))
      ensures Foot(loc') == Foot(mid) + (heap.Keys - old(heap).Keys)
      ensures Agree(old(heap), heap, old(heap).Keys - Foot(mid))
      decreases h, 0
    {
      hide Rep, RepAll, Foot, FootAll, Apart, Shape, Holds, FootRest, Splits, InsertNonFull, Once;
      FootAt(mid, j);
      NodeOf(heap, t, mid, s);
      ghost var sub := InsertNonFullAt(child, e, mid.kids[j], s.kids[j], h - 1);
      RepReplace(old(heap), heap, t, mid, s, j, sub, InsertNonFull(t, s.kids[j], h - 1, e));
      FootReplace(mid, j, sub);
      loc' := mid.(kids := mid.kids[j := sub]);
    }

    /** basicbtfs_btree_node_cache_insert: a new root goes to the head of the list. */
    method Insert(root: nat, e: Entry, ghost loc: Loc, ghost tr: Tree, ghost h: nat) returns (ghost loc': Loc)
      requires Mirrors(loc, tr) && Shape(t, tr, h) && (0 < h ==> 1 <= |tr.keys|) && root == loc.bno
      modifies this`heap, this`nodes, this`nrOfBlocks
      ensures Mirrors(loc', InsertTree(t, tr, h, e))
      ensures |nodes| == |old(nodes)| + RoomFor(t, tr, h, e)
    {
      hide Rep, RepAll, Foot, FootAll, Apart, Shape, Holds, Once, Descend, InsertNonFull, Splits;
      NodeOf(heap, t, loc, tr);
      if heap[root].node.nrOfKeys == 2 * t - 1 {
        loc' := GrowRoot(root, e, loc, tr, h);
      } else {
        loc' := InsertNonFullAt(root, e, loc, tr, h);
      }
    }

    /** The case of a full root. */
    method GrowRoot(root: nat, e: Entry, ghost loc: Loc, ghost tr: Tree, ghost h: nat) returns (ghost loc': Loc)
      requires Mirrors(loc, tr) && Shape(t, tr, h) && |tr.keys| == 2 * t - 1 && root == loc.bno
      modifies this`heap, this`nodes, this`nrOfBlocks
      ensures Mirrors(loc', InsertNonFull(t, Node([], [tr]), GrownHeight(t, tr, h), e))
      ensures |nodes| == |old(nodes)| + 1 + Splits(t, Node([], [tr]), GrownHeight(t, tr, h), e)
    {
      hide Rep, RepAll, Foot, FootAll, Apart, Shape, Holds, Once, Descend, InsertNonFull, Splits, SplitLoc,
           BTree.SplitChild;
      ghost var single := Node([], [tr]);
      ghost var (s, j) := Descend(t, single, e);
      RootInserts(t, tr, h, e);
      NodeOf(heap, t, loc, tr);
      var newRoot := AddNode(NewNode(t, false, 0).(children := Zeroes(2 * t, 0)[0 := root]));
      ghost var up := Loc(newRoot, [loc]);
      SingleRoot(old(heap), heap, t, newRoot, 0, loc, tr, h);
      NodeOf(heap, t, up, single);
      label Placed:
      FootAt(up, 0);
      var rhs := SplitChild(newRoot, root, 0, up, single, h + 1);
      ghost var mid := SplitLoc(t, up, 0, rhs);
      SplitLocBno(t, up, 0, rhs);
      NodeOf(heap, t, mid, s);
      var node := heap[newRoot].node;
      var child := node.children[if node.entries[0].hash < e.hash then 1 else 0];
      label Halved:
      loc' := InsertIntoChild(child, e, mid, s, h + 1, j);
      OwnBlock(loc');
      UpdateRootNode(newRoot);
    }

    // -------------------------------------------------------------- deletion

    /** basicbtfs_btree_node_cache_merge, repaired like the merge on disk. */
    method Merge(bno: nat, index: nat, ghost loc: Loc, ghost tr: Tree, ghost h: nat)
      requires InStep() && Under(loc, tr) && 0 < h && Shape(t, tr, h) && index < |tr.keys| && bno == loc.bno
      requires |tr.kids| == |tr.keys| + 1 == |loc.kids|
      requires |tr.kids[index].keys| == |tr.kids[index + 1].keys| == t - 1
      modifies this`heap, this`nodes, this`nrOfBlocks
      ensures InStep() && Under(MergeLoc(loc, index), BTreeDelete.Merge(tr, index))
      ensures Lost(old(heap), old(nodes), heap, nodes, Foot(loc), Foot(MergeLoc(loc, index)), 1)
      ensures Agree(old(heap), heap, old(heap).Keys - Foot(loc))
    {
      hide Rep, RepAll, Foot, FootAll, Apart, ApartAll, Shape, Holds, BTreeDelete.Merge, MergeLoc, Once;
      ghost var a, b, ta, tb := loc.kids[index], loc.kids[index + 1], tr.kids[index], tr.kids[index + 1];
      NodeOf(heap, t, loc, tr);
      NodeOf(heap, t, a, ta);
      NodeOf(heap, t, b, tb);
      PairKind(t, tr, h, index);
      PairAt(loc, index);
      OwnBlock(loc);
      var node := heap[bno].node;
      var lhsAt, rhsAt := node.children[index], node.children[index + 1];
      var lhs, rhs := heap[lhsAt].node, heap[rhsAt].node;
      var newPar, newLhs := MergeNodes(t, node, lhs, rhs, index);
      heap := heap[lhsAt := TreeBlock(newLhs)][bno := TreeBlock(newPar)];
      HoldsMergedKid(t, lhs, a, ta, rhs, b, tb, tr.keys[index], newLhs);
      HoldsMergedPar(t, node, loc, tr, newPar, index);
      MergedKid(loc, tr, index);
      DeleteNode(rhsAt);
      RepMerge(old(heap), heap, t, loc, tr, index);
      MergeApart(loc, index);
    }

    /** basicbtfs_btree_node_cache_steal_from_previous, repaired like that on disk. */
    method StealFromPrevious(bno: nat, index: nat, ghost loc: Loc, ghost tr: Tree, ghost h: nat)
      requires InStep() && Under(loc, tr) && 0 < h && Shape(t, tr, h) && 1 <= index <= |tr.keys| && bno == loc.bno
      requires |tr.kids| == |tr.keys| + 1 == |loc.kids|
      requires 1 <= |tr.kids[index - 1].keys| && |tr.kids[index].keys| < 2 * t - 1
      modifies this`heap
      ensures InStep() && Under(StealPrevLoc(loc, index), StealPrev(tr, index))
      ensures heap.Keys == old(heap).Keys && Foot(StealPrevLoc(loc, index)) == Foot(loc)
      ensures Agree(old(heap), heap, heap.Keys - Foot(loc))
    {
      hide Rep, RepAll, Foot, FootAll, Apart, ApartAll, Shape, Holds, StealPrevLoc, StealPrev, Once;
      var i := index - 1;
      ghost var a, b, ta, tb := loc.kids[i], loc.kids[i + 1], tr.kids[i], tr.kids[i + 1];
      NodeOf(heap, t, loc, tr);
      NodeOf(heap, t, a, ta);
      NodeOf(heap, t, b, tb);
      PairKind(t, tr, h, i);
      PairAt(loc, i);
      OwnBlock(loc);
      var node := heap[bno].node;
      var lhsAt, rhsAt := node.children[i], node.children[index];
      var lhs, rhs := heap[lhsAt].node, heap[rhsAt].node;
      var newPar, newLhs, newRhs := StealPrevNodes(t, node, lhs, rhs, i);
      heap := heap[lhsAt := TreeBlock(newLhs)][rhsAt := TreeBlock(newRhs)][bno := TreeBlock(newPar)];
      StealPrevRep(old(heap), heap, t, loc, tr, h, index, node, lhs, rhs, newPar, newLhs, newRhs);
      StealPrevApart(loc, index);
    }

    /** basicbtfs_btree_node_cache_steal_from_next */
    method StealFromNext(bno: nat, index: nat, ghost loc: Loc, ghost tr: Tree, ghost h: nat)
      requires InStep() && Under(loc, tr) && 0 < h && Shape(t, tr, h) && index < |tr.keys| && bno == loc.bno
      requires |tr.kids| == |tr.keys| + 1 == |loc.kids|
      requires 1 <= |tr.kids[index + 1].keys| && |tr.kids[index].keys| < 2 * t - 1
      modifies this`heap
      ensures InStep() && Under(StealNextLoc(loc, index), StealNext(tr, index))
      ensures heap.Keys == old(heap).Keys && Foot(StealNextLoc(loc, index)) == Foot(loc)
      ensures Agree(old(heap), heap, heap.Keys - Foot(loc))
    {
      hide Rep, RepAll, Foot, FootAll, Apart, ApartAll, Shape, Holds, StealNextLoc, StealNext, Once;
      ghost var a, b, ta, tb := loc.kids[index], loc.kids[index + 1], tr.kids[index], tr.kids[index + 1];
      NodeOf(heap, t, loc, tr);
      NodeOf(heap, t, a, ta);
      NodeOf(heap, t, b, tb);
      PairKind(t, tr, h, index);
      PairAt(loc, index);
      OwnBlock(loc);
      var node := heap[bno].node;
      var lhsAt, rhsAt := node.children[index], node.children[index + 1];
      var lhs, rhs := heap[lhsAt].node, heap[rhsAt].node;
      var newPar, newLhs, newRhs := StealNextNodes(t, node, lhs, rhs, index);
      heap := heap[lhsAt := TreeBlock(newLhs)][rhsAt := TreeBlock(newRhs)][bno := TreeBlock(newPar)];
      StealNextRep(old(heap), heap, t, loc, tr, h, index, node, lhs, rhs, newPar, newLhs, newRhs);
      StealNextApart(loc, index);
    }

    /** basicbtfs_btree_node_cache_fill, repaired like that on disk. */
    method Fill(bno: nat, index: nat, ghost loc: Loc, ghost tr: Tree, ghost h: nat) returns (at: nat, ghost mid: Loc)
      requires InStep() && Under(loc, tr) && 0 < h && Shape(t, tr, h) && 1 <= |tr.keys| && bno == loc.bno
      requires index < |tr.kids| == |tr.keys| + 1 && |tr.kids[index].keys| < t
      modifies this`heap, this`nodes, this`nrOfBlocks
      ensures InStep() && at == BTreeDelete.Fill(t, tr, index).1 && mid.bno == bno
      ensures Under(mid, BTreeDelete.Fill(t, tr, index).0)
      ensures Lost(old(heap), old(nodes), heap, nodes, Foot(loc), Foot(mid),
                   |tr.keys| - |BTreeDelete.Fill(t, tr, index).0.keys|)
      ensures Agree(old(heap), heap, old(heap).Keys - Foot(loc))
    {
      hide Rep, RepAll, Foot, FootAll, Apart, ApartAll, Shape, Holds, StealPrevLoc, StealNextLoc, MergeLoc, Once;
      NodeOf(heap, t, loc, tr);
      MinKeys(t, tr, h);
      var node := heap[bno].node;
      if index > 0 {
        NodeOf(heap, t, loc.kids[index - 1], tr.kids[index - 1]);
      }
      if index < node.nrOfKeys {
        NodeOf(heap, t, loc.kids[index + 1], tr.kids[index + 1]);
      }
      at := index;
      if index != 0 && heap[node.children[index - 1]].node.nrOfKeys >= t {
        StealFromPrevious(bno, index, loc, tr, h);
        mid := StealPrevLoc(loc, index);
        StealPrevBno(loc, index);
      } else if index != node.nrOfKeys && heap[node.children[index + 1]].node.nrOfKeys >= t {
        StealFromNext(bno, index, loc, tr, h);
        mid := StealNextLoc(loc, index);
        StealNextBno(loc, index);
      } else {
        if index == node.nrOfKeys {
          at := index - 1;
        }
        Merge(bno, at, loc, tr, h);
        mid := MergeLoc(loc, at);
        MergedKid(loc, tr, at);
      }
    }

    /** The recursive call of delete on child j of a rearranged node. */
    method DeleteInChild(child: nat, x: nat, ghost mid: Loc, ghost s: Tree, ghost h: nat, ghost j: nat)
      returns (ghost loc': Loc)
      requires InStep() && Under(mid, s) && 0 < h && j < |s.kids| && j < |mid.kids| && child == mid.kids[j].bno
      requires Shape(t, s.kids[j], h - 1) && 1 <= |s.kids[j].keys|
      modifies this`heap, this`nodes, this`nrOfBlocks
      ensures InStep() && loc'.bno == mid.bno
      ensures Under(loc', Node(s.keys, s.kids[j := BTreeDelete.Delete(t, s.kids[j], h - 1, x)]))
      ensures Lost(old(heap), old(nodes), heap, nodes, Foot(mid), Foot(loc'), Merges(t, s.kids[j], h - 1, x))
      ensures Agree(old(heap), heap, old(heap).Keys - Foot(mid))
      decreases h, 0
    {
      hide Rep, RepAll, Foot, FootAll, Apart, ApartAll, Shape, Holds, FootRest, BTreeDelete.Delete, Merges, Once;
      FootAt(mid, j);
      NodeOf(heap, t, mid, s);
      ghost var sub := Delete(child, x, mid.kids[j], s.kids[j], h - 1);
      RepReplace(old(heap), heap, t, mid, s, j, sub, BTreeDelete.Delete(t, s.kids[j], h - 1, x));
      FootReplace(mid, j, sub);
      loc' := mid.(kids := mid.kids[j := sub]);
    }

    /** basicbtfs_btree_node_cache_delete. Repaired: a leaf without the hash is left alone, and after
        a merge with the previous child the descent goes on there. */
    method Delete(bno: nat, x: nat, ghost loc: Loc, ghost tr: Tree, ghost h: nat) returns (ghost loc': Loc)
      requires InStep() && Under(loc, tr) && Shape(t, tr, h) && (0 < h ==> 1 <= |tr.keys|) && bno == loc.bno
      modifies this`heap, this`nodes, this`nrOfBlocks
      ensures InStep() && loc'.bno == bno && Under(loc', BTreeDelete.Delete(t, tr, h, x))
      ensures Lost(old(heap), old(nodes), heap, nodes, Foot(loc), Foot(loc'), Merges(t, tr, h, x))
      ensures Agree(old(heap), heap, old(heap).Keys - Foot(loc))
      decreases h, 2
    {
      hide Rep, RepAll, Foot, FootAll, Apart, ApartAll, Shape, Holds, Prepare, Once, Lost;
      NodeOf(heap, t, loc, tr);
      ShapeKids(t, tr, h);
      OwnBlock(loc);
      var node := heap[bno].node;
      var index := FindKeyLoop(node.entries, node.nrOfKeys, x);
      if node.leaf {
        loc' := loc;
        if index < node.nrOfKeys && node.entries[index].hash == x {
          RemoveFromLeaf(bno, index, loc, tr);
        }
        LostNone(old(heap), heap, nodes, Foot(loc));
      } else {
        ghost var st := Prepare(t, tr, x);
        PrepareShape(t, tr, h, x);
        var child, hash;
        ghost var mid;
        child, hash, mid := PrepareChild(bno, index, x, loc, tr, h);
        label Ready:
        NodeOf(heap, t, mid, st.node);
        loc' := DeleteInChild(child, hash, mid, st.node, h, st.child);
        LostTwice(old(heap), old(nodes), old@Ready(heap), old@Ready(nodes), heap, nodes, Foot(loc), Foot(mid),
                  Foot(loc'),
                  |tr.keys| - |st.node.keys|, Merges(t, st.node.kids[st.child], h - 1, st.hash));
      }
    }

    /** basicbtfs_btree_node_cache_remove_from_leaf */
    method RemoveFromLeaf(bno: nat, index: nat, ghost loc: Loc, ghost tr: Tree)
      requires InStep() && Under(loc, tr) && tr.kids == [] && index < |tr.keys| && bno == loc.bno
      modifies this`heap
      ensures InStep() && Under(loc, Node(tr.keys[..index] + tr.keys[index + 1..], []))
      ensures heap.Keys == old(heap).Keys && Agree(old(heap), heap, heap.Keys - Foot(loc))
    {
      hide Rep, RepAll, Foot, FootAll, Apart, ApartAll, Once;
      NodeOf(heap, t, loc, tr);
      OwnBlock(loc);
      var node := heap[bno].node;
      var es := ShiftDown(node.entries, index + 1, node.nrOfKeys);
      var node' := node.(entries := es, nrOfKeys := node.nrOfKeys - 1);
      heap := heap[bno := TreeBlock(node')];
      assert forall k | 0 <= k < |tr.keys| :: node.entries[k] == tr.keys[k];
      assert es[..node'.nrOfKeys] == tr.keys[..index] + tr.keys[index + 1..];
      LeafRep(heap, t, loc, Node(tr.keys[..index] + tr.keys[index + 1..], []));
    }

    /** An inner node up to the recursive call: basicbtfs_btree_node_cache_remove_from_nonleaf if the
        hash is here, fill if the child it is to be searched in needs it. */
    method PrepareChild(bno: nat, index: nat, x: nat, ghost loc: Loc, ghost tr: Tree, ghost h: nat)
      returns (child: nat, hash: nat, ghost mid: Loc)
      requires InStep() && Under(loc, tr) && 0 < h && Shape(t, tr, h) && 1 <= |tr.keys| && bno == loc.bno
      requires |tr.kids| == |tr.keys| + 1 && index == FindKey(tr.keys, x)
      modifies this`heap, this`nodes, this`nrOfBlocks
      ensures var st := Prepare(t, tr, x);
              && InStep() && mid.bno == bno && Under(mid, st.node) && hash == st.hash
              && st.child < |mid.kids| && child == mid.kids[st.child].bno
              && Lost(old(heap), old(nodes), heap, nodes, Foot(loc), Foot(mid), |tr.keys| - |st.node.keys|)
      ensures Agree(old(heap), heap, old(heap).Keys - Foot(loc))
    {
      hide Rep, RepAll, Foot, FootAll, Apart, ApartAll, Shape, Holds, MaxEntry, MinEntry, BTreeDelete.Merge, MergeLoc,
           BTreeDelete.Fill, Once, Lost;
      LostNone(heap, heap, nodes, Foot(loc));
      PrepareShape(t, tr, h, x);
      NodeOf(heap, t, loc, tr);
      NodeOf(heap, t, loc.kids[index], tr.kids[index]);
      var node := heap[bno].node;
      mid, hash := loc, x;
      var at := index;
      if index < node.nrOfKeys && node.entries[index].hash == x {
        at, hash, mid := TakeOutKey(bno, index, loc, tr, h);
      } else if heap[node.children[index]].node.nrOfKeys < t {
        at, mid := Fill(bno, index, loc, tr, h);
      }
      NodeOf(heap, t, mid, Prepare(t, tr, x).node);
      child := heap[bno].node.children[at];
    }

    /** The three cases for a key in an inner node. */
    method TakeOutKey(bno: nat, index: nat, ghost loc: Loc, ghost tr: Tree, ghost h: nat)
      returns (at: nat, hash: nat, ghost mid: Loc)
      requires InStep() && Under(loc, tr) && 0 < h && Shape(t, tr, h) && index < |tr.keys| && bno == loc.bno
      requires |tr.kids| == |tr.keys| + 1 && index == FindKey(tr.keys, tr.keys[index].hash)
      modifies this`heap, this`nodes, this`nrOfBlocks
      ensures var st := Prepare(t, tr, tr.keys[index].hash);
              && InStep() && mid.bno == bno && Under(mid, st.node) && hash == st.hash && at == st.child
              && Lost(old(heap), old(nodes), heap, nodes, Foot(loc), Foot(mid), |tr.keys| - |st.node.keys|)
      ensures Agree(old(heap), heap, old(heap).Keys - Foot(loc))
    {
      hide Rep, RepAll, Foot, FootAll, Apart, ApartAll, Shape, Holds, MaxEntry, MinEntry, BTreeDelete.Merge, MergeLoc,
           Once, Lost;
      NodeOf(heap, t, loc, tr);
      OwnBlock(loc);
      MinKeys(t, tr, h);
      NodeOf(heap, t, loc.kids[index], tr.kids[index]);
      NodeOf(heap, t, loc.kids[index + 1], tr.kids[index + 1]);
      var node := heap[bno].node;
      at, mid, hash := index, loc, node.entries[index].hash;
      if heap[node.children[index]].node.nrOfKeys >= t {
        var pred := GetPredecessor(bno, index, loc, tr, h);
        OverwriteKey(bno, index, pred, loc, tr);
        LostNone(old(heap), heap, nodes, Foot(loc));
        hash := pred.hash;
      } else if heap[node.children[index + 1]].node.nrOfKeys >= t {
        var succ := GetSuccessor(bno, index, loc, tr, h);
        OverwriteKey(bno, index, succ, loc, tr);
        LostNone(old(heap), heap, nodes, Foot(loc));
        at, hash := index + 1, succ.hash;
      } else {
        Merge(bno, index, loc, tr, h);
        mid := MergeLoc(loc, index);
        MergedKid(loc, tr, index);
        MergedCount(tr, index);
      }
    }

    /** memcpy(&node->entries[index], &pred, ...) */
    method OverwriteKey(bno: nat, index: nat, e: Entry, ghost loc: Loc, ghost tr: Tree)
      requires InStep() && Under(loc, tr) && index < |tr.keys| && index + 1 < |tr.kids| && bno == loc.bno
      modifies this`heap
      ensures InStep() && Under(loc, Node(tr.keys[index := e], tr.kids))
      ensures heap.Keys == old(heap).Keys && Agree(old(heap), heap, heap.Keys - {bno})
    {
      hide Rep, RepAll, Foot, FootAll, Apart, ApartAll, Holds, Once;
      NodeOf(heap, t, loc, tr);
      OwnBlock(loc);
      var node := heap[bno].node;
      heap := heap[bno := TreeBlock(node.(entries := node.entries[index := e]))];
      KeyRep(old(heap), heap, t, loc, tr, index, e);
    }

    /** basicbtfs_btree_node_cache_get_predecessor. Repaired: the walk moves on to the child it has
        just read. */
    method GetPredecessor(bno: nat, index: nat, ghost loc: Loc, ghost tr: Tree, ghost h: nat) returns (e: Entry)
      requires 2 <= t && Rep(heap, t, loc, tr) && 0 < h && Shape(t, tr, h) && index < |tr.kids| && bno == loc.bno
      ensures e == MaxEntry(tr.kids[index])
    {
      hide Rep, Holds;
      NodeOf(heap, t, loc, tr);
      KidShape(t, tr, h);
      ghost var l, r := loc.kids[index], tr.kids[index];
      ghost var g: nat := h - 1;
      NodeOf(heap, t, l, r);
      var node := heap[heap[bno].node.children[index]].node;
      while !node.leaf
        invariant Rep(heap, t, l, r) && Shape(t, r, g) && 1 <= |r.keys|
        invariant l.bno in heap && heap[l.bno].TreeBlock? && node == heap[l.bno].node
        invariant MaxEntry(r) == MaxEntry(tr.kids[index])
        decreases g
      {
        NodeOf(heap, t, l, r);
        ShapeKids(t, r, g);
        KidShape(t, r, g);
        var n := node.nrOfKeys;
        l, r, g := l.kids[n], r.kids[n], g - 1;
        NodeOf(heap, t, l, r);
        node := heap[node.children[n]].node;
      }
      NodeOf(heap, t, l, r);
      e := node.entries[node.nrOfKeys - 1];
    }

    /** basicbtfs_btree_node_cache_get_successor, repaired in the same way. */
    method GetSuccessor(bno: nat, index: nat, ghost loc: Loc, ghost tr: Tree, ghost h: nat) returns (e: Entry)
      requires 2 <= t && Rep(heap, t, loc, tr) && 0 < h && Shape(t, tr, h) && index + 1 < |tr.kids| && bno == loc.bno
      ensures e == MinEntry(tr.kids[index + 1])
    {
      hide Rep, Holds;
      NodeOf(heap, t, loc, tr);
      KidShape(t, tr, h);
      ghost var l, r := loc.kids[index + 1], tr.kids[index + 1];
      ghost var g: nat := h - 1;
      NodeOf(heap, t, l, r);
      var node := heap[heap[bno].node.children[index + 1]].node;
      while !node.leaf
        invariant Rep(heap, t, l, r) && Shape(t, r, g) && 1 <= |r.keys|
        invariant l.bno in heap && heap[l.bno].TreeBlock? && node == heap[l.bno].node
        invariant MinEntry(r) == MinEntry(tr.kids[index + 1])
        decreases g
      {
        NodeOf(heap, t, l, r);
        ShapeKids(t, r, g);
        KidShape(t, r, g);
        l, r, g := l.kids[0], r.kids[0], g - 1;
        NodeOf(heap, t, l, r);
        node := heap[node.children[0]].node;
      }
      NodeOf(heap, t, l, r);
      e := node.entries[0];
    }

    /** basicbtfs_btree_cache_delete_entry: a root that runs out of keys hands over to its only child
        and leaves the list. */
    method DeleteEntry(root: nat, x: nat, ghost loc: Loc, ghost tr: Tree, ghost h: nat) returns (ghost loc': Loc)
      requires Mirrors(loc, tr) && Shape(t, tr, h) && (0 < h ==> 1 <= |tr.keys|) && root == loc.bno
      modifies this`heap, this`nodes, this`nrOfBlocks
      ensures Mirrors(loc', DeleteTree(t, tr, h, x))
      ensures |nodes| == |old(nodes)| - Merges(t, tr, h, x) - (if DeleteHeight(t, tr, h, x) == h then 0 else 1)
    {
      hide Rep, RepAll, Foot, FootAll, Apart, ApartAll, Shape, Holds, Once, BTreeDelete.Delete, Merges;
      ghost var r := BTreeDelete.Delete(t, tr, h, x);
      OwnBlock(loc);
      loc' := Delete(root, x, loc, tr, h);
      OwnBlock(loc');
      NodeOf(heap, t, loc', r);
      ShapeKids(t, r, h);
      var node := heap[root].node;
      if node.nrOfKeys == 0 && !node.leaf {
        HandOver(root, loc', r, h);
        loc' := loc'.kids[0];
      }
    }

    /** The only child becomes the root, the old root is gone. */
    method HandOver(root: nat, ghost loc: Loc, ghost tr: Tree, ghost h: nat)
      requires Mirrors(loc, tr) && 0 < h && Shape(t, tr, h) && tr.keys == [] && root == loc.bno
               && |tr.kids| == 1 == |loc.kids|
      modifies this`heap, this`nodes, this`nrOfBlocks
      ensures Mirrors(loc.kids[0], tr.kids[0]) && |nodes| == |old(nodes)| - 1
    {
      hide Rep, RepAll, Foot, FootAll, Apart, ApartAll, Shape, Holds, Once;
      NodeOf(heap, t, loc, tr);
      FootAt(loc, 0);
      OneChild(loc);
      var child := heap[root].node.children[0];
      UpdateRootNode(child);
      DeleteNode(root);
      RepFrame(old(heap), heap, t, loc.kids[0], tr.kids[0]);
    }

    // --------------------------------------------------------------- lookups

    /** basicbtfs_btree_node_cache_lookup. Repaired: the bound on index. */
    method Find(bno: nat, hash: nat, ghost loc: Loc, ghost tr: Tree) returns (r: Option<Entry>)
      requires Rep(heap, t, loc, tr) && bno == loc.bno
      ensures r == Lookup(tr, hash)
      decreases tr
    {
      hide Rep, Holds;
      NodeOf(heap, t, loc, tr);
      var node := heap[bno].node;
      var index := FindKeyLoop(node.entries, node.nrOfKeys, hash);
      if index < node.nrOfKeys && node.entries[index].hash == hash {
        return Some(node.entries[index]);
      }
      if node.leaf {
        return None;
      }
      r := Find(node.children[index], hash, loc.kids[index], tr.kids[index]);
    }

    /** The same lookup as it is written: right exactly when nothing on the search path is misread,
        or what is misread happens to give the same inode number. */
    method FindAsWritten(bno: nat, hash: nat, ghost loc: Loc, ghost tr: Tree) returns (r: nat)
      requires 2 <= t && Rep(heap, t, loc, tr) && bno == loc.bno
      ensures r == AnswerOf(Misread(heap, t, loc, tr, hash), Lookup(tr, hash))
      ensures r == InoOf(Lookup(tr, hash)) <==>
              var m := Misread(heap, t, loc, tr, hash); m.None? || m.value.slot.ino == InoOf(Lookup(tr, hash))
      decreases tr
    {
      hide Rep, Holds;
      NodeOf(heap, t, loc, tr);
      var node := heap[bno].node;
      var index := FindKeyLoop(node.entries, node.nrOfKeys, hash);
      var slot := SlotAt(node, index);
      if slot.hash == hash {
        return slot.ino;
      }
      if node.leaf {
        return 0;
      }
      r := FindAsWritten(node.children[index], hash, loc.kids[index], tr.kids[index]);
    }
  }

  /** Inserting at a fresh root is splitting its only child and going on below. */
  lemma RootInserts(t: nat, tr: Tree, h: nat, e: Entry)
    requires 2 <= t && Shape(t, tr, h) && |tr.keys| == 2 * t - 1
    ensures Shape(t, Node([], [tr]), h + 1)
    ensures var root := Node([], [tr]); var s := SplitChild(t, root, 0);
            Descend(t, root, e) == (s, SplitSide(s, 0, e))
    ensures var root := Node([], [tr]); var (s, j) := Descend(t, root, e);
            && |s.keys| == 1 && |s.kids| == 2
            && j < |s.kids| && Shape(t, s.kids[j], h) && |s.kids[j].keys| < 2 * t - 1
            && InsertNonFull(t, root, h + 1, e) == Node(s.keys, s.kids[j := InsertNonFull(t, s.kids[j], h, e)])
            && Splits(t, root, h + 1, e) == 1 + Splits(t, s.kids[j], h, e)
  {
    GrownShape(t, tr, h);
    hide Shape;
    var root := Node([], [tr]);
    DescendShape(t, root, h + 1, e);
    SplitKeyCount(t, root, 0);
  }

  /** The height of a tree with a new root over a full one. */
  function GrownHeight(t: nat, tr: Tree, h: nat): (g: nat)
    requires 2 <= t && Shape(t, tr, h) && |tr.keys| == 2 * t - 1
    ensures Shape(t, Node([], [tr]), g)
  {
    GrownShape(t, tr, h);
    h + 1
  }

  lemma OneChild(loc: Loc)
    requires |loc.kids| == 1
    ensures Foot(loc) == {loc.bno} + Foot(loc.kids[0])
    ensures Apart(loc) ==> loc.bno !in Foot(loc.kids[0])
  {
    FootAt(loc, 0);
    assert loc.kids[..0] == [] && loc.kids[1..] == [];
  }
}
