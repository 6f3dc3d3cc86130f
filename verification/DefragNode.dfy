/** basicbtfs_defrag_btree_node: one tree node goes to the wanted block. */
module DefragNode {
  import opened Blocks
  import opened Bitmap
  import opened DiskTree
  import opened System
  import opened Relocate
  import opened DefragStep
  import opened Defrag

  /** What every step keeps: a well-linked block graph on allocated blocks below the
      high-water mark, in which data does not look like something else, and in which every
      allocated block from base on belongs to something. */
  ghost predicate Steady(v: Volume, live: set<nat>, base: nat)
    reads v, v.alloc, v.alloc.bits
  {
    v.Ready() && WellLinked(Snap(v), live) && HonestAll(v.blocks, live)
    && Placed(v.alloc.Used(), v.alloc.unused, v.alloc.bits.Length, live, base)
  }

  ghost predicate Placed(used: set<nat>, mark: nat, size: nat, live: set<nat>, base: nat) {
    live <= used && AllBelow(used, mark) && mark <= size && Claimed(used, live, base)
  }

  ghost predicate AllBelow(s: set<nat>, n: nat) { forall b | b in s :: b < n }

  ghost predicate Claimed(used: set<nat>, live: set<nat>, base: nat) { forall b | b in used && base <= b :: b in live }

  ghost predicate HonestAll(d: Disk, live: set<nat>) { forall b | b in live && b in d :: Honest(d[b]) }

  lemma HonestMoved(r: map<nat, nat>, s: Sys, live: set<nat>, u: Sys)
    requires WellLinked(s, live) && Moved(r, s, live, u) && HonestAll(s.disk, live)
    ensures HonestAll(u.disk, r.Values)
  {
    hide Renamed, WellLinked, Moved;
    forall y | y in r.Values && y in u.disk
      ensures Honest(u.disk[y])
    {
      var x :| x in r && r[x] == y;
      MovedKeys(r, s, live, u);
      MovedAt(r, s, live, u, x);
      RenamedData(r, s.disk[x], u.disk[y]);
    }
  }

  lemma MovedKeys(r: map<nat, nat>, s: Sys, live: set<nat>, u: Sys)
    requires Moved(r, s, live, u)
    ensures r.Keys == live
  {
  }

  /** What a step may do to block numbers: the node goes to off, nothing below off moves,
      and what moves otherwise goes past the old high-water mark. */
  ghost predicate StepMap(r: map<nat, nat>, live: set<nat>, a: nat, off: nat, mark: nat) {
    && r.Keys == live && a in r && r[a] == off
    && forall x | x in r && x != a :: r[x] == x || (off <= x && mark <= r[x])
  }

  /** Of blocks other than data, only the one that goes to off and what was there move. */
  ghost predicate OthersStay(r: map<nat, nat>, d: Disk, a: nat, off: nat) {
    forall x | x in r && x != a && x != off && !IsData(d, x) :: r[x] == x
  }

  // ------------------------------------------------------ before the repair

  /** The copied node can be repaired. */
  lemma CopyPatchable(s: Sys, live: set<nat>, a: nat, b: nat, d: Disk, n': BNode, size: nat)
    requires WellLinked(s, live) && AllBelow(live, size + 1) && a in live && IsTree(s.disk, a)
    requires a != b && !IsParent(s, a, b) && IsTree(d, b) && d[b].node == n'
    requires n'.root == s.disk[a].node.root && n'.parent == s.disk[a].node.parent && n'.nrOfKeys < |n'.children|
    requires forall x | x in live && x != a && x != b && IsTree(s.disk, x) :: IsTree(d, x) && d[x] == s.disk[x]
    requires forall k | k in Kids(n') :: k != b && 0 < k <= size && IsTree(d, k)
    ensures Patchable(s.(disk := d), size, b)
  {
    hide WellLinked;
    LiveBlock(s, live, a);
    if !s.disk[a].node.root {
      LiveBlock(s, live, s.disk[a].node.parent);
    }
  }

  /** ... when nothing but its number changes, */
  lemma PlainPatchable(s: Sys, live: set<nat>, a: nat, b: nat, c: nat, size: nat)
    requires WellLinked(s, live) && AllBelow(live, size + 1) && a in live && IsTree(s.disk, a)
    requires a != b && !IsParent(s, a, b) && b !in Kids(s.disk[a].node) && c !in live && b in s.disk
    ensures Patchable(CopyBoth(s, a, b, c), size, b)
  {
    hide WellLinked;
    LiveBlock(s, live, a);
    var d := CopyBoth(s, a, b, c).disk;
    forall k | k in Kids(s.disk[a].node)
      ensures k != b && 0 < k <= size && IsTree(d, k)
    {
      LiveBlock(s, live, k);
    }
    CopyPatchable(s, live, a, b, d, s.disk[a].node, size);
  }

  lemma FreePatchable(s: Sys, live: set<nat>, a: nat, b: nat, size: nat)
    requires WellLinked(s, live) && AllBelow(live, size + 1) && a in live && IsTree(s.disk, a) && b !in live
    ensures Patchable(Put(s, b, s.disk[a]), size, b)
  {
    hide WellLinked;
    LiveBlock(s, live, a);
    var d := Put(s, b, s.disk[a]).disk;
    forall k | k in Kids(s.disk[a].node)
      ensures k != b && 0 < k <= size && IsTree(d, k)
    {
      LiveBlock(s, live, k);
    }
    CopyPatchable(s, live, a, b, d, s.disk[a].node, size);
  }

  /** ... when its slot for the evicted child is redirected, */
  lemma RedirectedPatchable(s: Sys, live: set<nat>, a: nat, b: nat, c: nat, size: nat)
    requires WellLinked(s, live) && AllBelow(live, size + 1) && a in live && IsTree(s.disk, a) && b in live
             && IsTree(s.disk, b)
    requires a != b && !IsParent(s, a, b) && c !in live && 0 < c <= size
    ensures Patchable(CopyTrees(s, a, b, c), size, b)
  {
    hide WellLinked, PatchSlot, Redirected, BlockOk, Touches, NameOk, IsParent;
    LiveBlock(s, live, a);
    OnlyParent(s, live, b, a);
    RedirectedIs(s, live, a, b, c);
    var n := s.disk[a].node;
    var n' := Redirected(n, b, c);
    var d := CopyTrees(s, a, b, c).disk;
    if b in Kids(n) {
      SlotOf(s, live, a, b, c);
      KidsAfter(n, b, c);
      SlotCount(n, b, c);
    }
    forall k | k in Kids(n')
      ensures k != b && 0 < k <= size && IsTree(d, k)
    {
      if k != c {
        assert k in Kids(n);
        LiveBlock(s, live, k);
      }
    }
    CopyPatchable(s, live, a, b, d, n', size);
  }

  lemma SlotCount(n: BNode, b: nat, c: nat)
    ensures PatchSlot(n, b, c).nrOfKeys == n.nrOfKeys && |PatchSlot(n, b, c).children| == |n.children|
  {
  }

  lemma EvictedKids(s: Sys, live: set<nat>, a: nat, b: nat, c: nat, size: nat)
    requires WellLinked(s, live) && AllBelow(live, size + 1) && a in live && IsTree(s.disk, a) && b in live
             && IsTree(s.disk, b)
    requires c !in live
    ensures var s1 := CopyTrees(s, a, b, c); var s2 := TreePatch(s1, s1.disk[b].node, a, b);
            forall k | k in Kids(s.disk[b].node) :: k != c && 0 < k <= size && IsTree(s2.disk, k)
  {
    hide WellLinked, PatchNode, Redirected, Touches, Kids;
    LiveBlock(s, live, b);
    forall k | k in Kids(s.disk[b].node)
      ensures k != c && 0 < k <= size
              && IsTree(TreePatch(CopyTrees(s, a, b, c), CopyTrees(s, a, b, c).disk[b].node, a, b).disk, k)
    {
      LiveBlock(s, live, k);
    }
  }

  /** ... and then the evicted node too. */
  lemma EvictedPatchable(s: Sys, live: set<nat>, a: nat, b: nat, c: nat, size: nat)
    requires WellLinked(s, live) && AllBelow(live, size + 1) && a in live && IsTree(s.disk, a) && b in live
             && IsTree(s.disk, b)
    requires a != b && !IsParent(s, a, b) && c !in live && 0 < c <= size
    ensures var s1 := CopyTrees(s, a, b, c); var s2 := TreePatch(s1, s1.disk[b].node, a, b);
            Patchable(s2, size, c) && IsTree(s2.disk, c)
  {
    hide WellLinked, PatchSlot, Redirected, BlockOk, IsParent;
    var n, o := s.disk[a].node, s.disk[b].node;
    var s1 := CopyTrees(s, a, b, c);
    var s2 := TreePatch(s1, s1.disk[b].node, a, b);
    LiveBlock(s, live, a);
    LiveBlock(s, live, b);
    OnlyParent(s, live, a, b);
    OnlyParent(s, live, b, a);
    OnlyParent(s, live, b, b);
    RedirectedIs(s, live, a, b, c);
    TreeEnds(s, live, a, b, c);
    RootsApart(s, live, a, b);
    SameKids(o, b);
    EvictedKids(s, live, a, b, c, size);
    if !o.root && b !in Kids(n) {
      LiveBlock(s, live, o.parent);
      PatchedCount(s.disk[o.parent].node, o.parent, s1.disk[b].node, a, b);
    }
    if b in Kids(n) {
      SlotCount(n, b, c);
      PatchedCount(s1.disk[b].node, b, s1.disk[b].node, a, b);
    }
  }

  lemma PatchedCount(x: BNode, y: nat, n: BNode, a: nat, b: nat)
    ensures PatchNode(x, y, n, a, b).nrOfKeys == x.nrOfKeys && |PatchNode(x, y, n, a, b).children| == |x.children|
  {
  }

  // --------------------------------------------------- the cases of the switch

  /** Both copies, and the moved node's own slot for the evicted one. */
  method CopyRedirected(v: Volume, a: nat, off: nat, tmp: nat)
    requires IsTree(v.blocks, a) && IsTree(v.blocks, off) && a != off && tmp !in {a, off}
    requires v.blocks[a].node.nrOfKeys < |v.blocks[a].node.children|
    modifies v`blocks
    ensures Snap(v) == CopyTrees(old(Snap(v)), a, off, tmp)
  {
    hide ReplaceAll;
    ghost var s := Snap(v);
    var n, o := v.blocks[a].node, v.blocks[off].node;
    v.blocks := v.blocks[tmp := v.blocks[off]];
    v.blocks := v.blocks[off := v.blocks[a]];
    var cs, touched := RedirectSlots(n.children, n.nrOfKeys + 1, off, tmp);
    if touched {
      v.blocks := v.blocks[tmp := TreeBlock(o.(parent := off))];
    }
    v.blocks := v.blocks[off := TreeBlock(n.(children := cs))];
    assert v.blocks == CopyTrees(s, a, off, tmp).disk;
  }

  /** Both copies and the repair for a tree node in the way. */
  method SwapTree(v: Volume, a: nat, off: nat, tmp: nat, ghost live: set<nat>)
    requires WellLinked(Snap(v), live) && AllBelow(live, v.alloc.bits.Length + 1)
    requires a in live && IsTree(v.blocks, a) && off in live && IsTree(v.blocks, off) && a != off
    requires tmp !in live && 0 < tmp <= v.alloc.bits.Length && !IsParent(Snap(v), a, off)
    modifies v`blocks, v`iBno
    ensures Snap(v) == TreeOverTree(old(Snap(v)), a, off, tmp)
  {
    hide WellLinked, TreePatch, Patchable, IsParent;
    ghost var s, size := Snap(v), v.alloc.bits.Length;
    LiveBlock(s, live, a);
    LiveBlock(s, live, off);
    RedirectedPatchable(s, live, a, off, tmp, size);
    EvictedPatchable(s, live, a, off, tmp, size);
    CopyRedirected(v, a, off, tmp);
    var ok := MoveBtreeNode(v, off, a, off);
    ok := MoveBtreeNode(v, tmp, off, tmp);
  }

  /** for (i = 0; i <= nr_of_keys; i++) if (children[i] == b) children[i] = c; */
  method RedirectSlots(s: seq<nat>, n: nat, b: nat, c: nat) returns (r: seq<nat>, touched: bool)
    requires n <= |s|
    ensures r == ReplaceAll(s, n, b, c) && (touched <==> b in s[..n])
  {
    r, touched := s, false;
    for i := 0 to n
      invariant |r| == |s| && (touched <==> b in s[..i])
      invariant forall k | 0 <= k < |s| :: r[k] == if k < i && s[k] == b then c else s[k]
    {
      if r[i] == b {
        r := r[i := c];
        touched := true;
      }
      assert s[..i + 1] == s[..i] + [s[i]];
    }
    assert r == ReplaceAll(s, n, b, c);
  }

  method SwapName(v: Volume, a: nat, off: nat, tmp: nat, ghost live: set<nat>)
    requires WellLinked(Snap(v), live) && AllBelow(live, v.alloc.bits.Length + 1)
    requires a in live && IsTree(v.blocks, a) && off in live && IsName(v.blocks, off)
    requires tmp !in live && 0 < tmp <= v.alloc.bits.Length
    modifies v`blocks, v`iBno
    ensures Snap(v) == TreeOverName(old(Snap(v)), a, off, tmp)
  {
    hide WellLinked, Patchable;
    ghost var s, size := Snap(v), v.alloc.bits.Length;
    LiveBlock(s, live, a);
    LiveBlock(s, live, off);
    NotKin(s, live, a, off);
    PlainPatchable(s, live, a, off, tmp, size);
    v.blocks := v.blocks[tmp := v.blocks[off]];
    v.blocks := v.blocks[off := v.blocks[a]];
    var ok := MoveBtreeNode(v, off, a, off);
    NameLinksReady(s, live, a, off, tmp, size);
    ok := MoveNamelist(v, tmp, tmp);
  }

  lemma NotKin(s: Sys, live: set<nat>, a: nat, b: nat)
    requires WellLinked(s, live) && a in live && IsTree(s.disk, a) && b in live && !IsTree(s.disk, b)
    ensures !IsParent(s, a, b) && b !in Kids(s.disk[a].node) && a != b
  {
    LiveBlock(s, live, a);
  }

  /** After the node's references are repaired, the name block's can be followed. */
  lemma NameLinksReady(s: Sys, live: set<nat>, a: nat, b: nat, c: nat, size: nat)
    requires WellLinked(s, live) && AllBelow(live, size + 1) && a in live && IsTree(s.disk, a)
    requires b in live && IsName(s.disk, b) && c !in live
    ensures var s2 := TreePatch(CopyBoth(s, a, b, c), s.disk[a].node, a, b); var x := s.disk[b];
            && IsName(s2.disk, c) && s2.disk[c] == x
            && (x.first ==> x.prev in s2.iBno && 0 < s2.iBno[x.prev] <= size && IsTree(s2.disk, s2.iBno[x.prev]))
            && (!x.first ==> 0 < x.prev <= size && IsName(s2.disk, x.prev))
            && (x.next != 0 ==> x.next <= size && IsName(s2.disk, x.next))
  {
    hide WellLinked, PatchNode;
    LiveBlock(s, live, a);
    LiveBlock(s, live, b);
    var x := s.disk[b];
    if x.first { LiveBlock(s, live, s.iBno[x.prev]); } else { LiveBlock(s, live, x.prev); }
    if x.next != 0 { LiveBlock(s, live, x.next); }
  }

  method SwapTable(v: Volume, a: nat, off: nat, tmp: nat, ghost live: set<nat>)
    requires WellLinked(Snap(v), live) && AllBelow(live, v.alloc.bits.Length + 1)
    requires a in live && IsTree(v.blocks, a) && off in live && IsTable(v.blocks, off)
    requires tmp !in live && 0 < tmp <= v.alloc.bits.Length
    modifies v`blocks, v`iBno
    ensures Snap(v) == TreeOverTable(old(Snap(v)), a, off, tmp)
  {
    hide WellLinked, Patchable, PatchNode;
    ghost var s, size := Snap(v), v.alloc.bits.Length;
    LiveBlock(s, live, a);
    NotKin(s, live, a, off);
    PlainPatchable(s, live, a, off, tmp, size);
    v.blocks := v.blocks[tmp := v.blocks[off]];
    v.blocks := v.blocks[off := v.blocks[a]];
    var ok := MoveBtreeNode(v, off, a, off);
    ok := MoveClusterTable(v, tmp, tmp);
  }

  method SwapData(v: Volume, a: nat, off: nat, tmp: nat, ghost live: set<nat>) returns (run: nat)
    requires v.alloc.Valid() && WellLinked(Snap(v), live) && AllBelow(v.alloc.Used(), v.alloc.unused)
    requires a in live && IsTree(v.blocks, a) && FirstOfCluster(Snap(v), live, off) && live <= v.alloc.Used()
    requires tmp !in live && tmp in v.alloc.Used() && 0 < tmp && forall x | x in live :: x < tmp
    requires v.alloc.unused + CLUSTER_LEN <= v.alloc.bits.Length
    modifies v`blocks, v`iBno, v`info, v.alloc, v.alloc.bits
    ensures v.alloc.Valid() && run == old(v.alloc.unused) && v.alloc.unused == run + CLUSTER_LEN
    ensures v.alloc.Used() == old(v.alloc.Used()) + Range(run, CLUSTER_LEN) - Range(off + 1, CLUSTER_LEN - 1) - {tmp}
    ensures Snap(v) == TreeOverData(old(Snap(v)), a, off, tmp, run)
  {
    hide WellLinked, Patchable, PatchNode, SetBits, Took, TookAt, Gave, FreeBits, DataPatchFrom, FirstOfCluster, Range,
         TreePatch;
    ghost var s, size := Snap(v), v.alloc.bits.Length;
    ClusterFacts(s, live, off);
    LiveBlock(s, live, a);
    NotKin(s, live, a, off);
    UsedBelow(live, v.alloc.Used(), v.alloc.unused, size);
    PlainPatchable(s, live, a, off, tmp, size);
    v.blocks := v.blocks[tmp := v.blocks[off]];
    v.blocks := v.blocks[off := v.blocks[a]];
    var ok := MoveBtreeNode(v, off, a, off);
    ClusterReady(s, live, a, off, tmp);
    ok, run := MoveFileBlock(v, off, tmp);
  }

  lemma UsedBelow(live: set<nat>, used: set<nat>, n: nat, size: nat)
    requires live <= used && AllBelow(used, n) && n <= size
    ensures AllBelow(live, size + 1)
  {
  }

  /** After the node's references are repaired, the cluster can be moved. */
  lemma ClusterReady(s: Sys, live: set<nat>, a: nat, b: nat, c: nat)
    requires WellLinked(s, live) && a in live && IsTree(s.disk, a) && FirstOfCluster(s, live, b) && c !in live
    requires forall x | x in live :: x < c
    ensures var s2 := TreePatch(CopyBoth(s, a, b, c), s.disk[a].node, a, b);
            && MovableCluster(s2, b) && IsData(s2.disk, c) && s2.info == s.info
            && b + CLUSTER_LEN <= c && s2.iBno[s.info[b].ino] == s.iBno[s.info[b].ino] && s.iBno[s.info[b].ino] in live
  {
    hide WellLinked, PatchNode, FirstOfCluster;
    ClusterFacts(s, live, b);
    LiveBlock(s, live, a);
    LiveBlock(s, live, b);
    var tb := s.iBno[s.info[b].ino];
    TableInode(s, live, tb);
    LiveBlock(s, live, tb);
    ClusterRun(s, live, b, tb);
    ClusterStart(s, live, b);
    ClusterRun(s, live, b, b + (CLUSTER_LEN - 1));
    var s2 := TreePatch(CopyBoth(s, a, b, c), s.disk[a].node, a, b);
    forall x | InRun(x, b)
      ensures x in s2.disk
    {
      ClusterRun(s, live, b, x);
    }
  }

  lemma ClusterStart(s: Sys, live: set<nat>, b: nat)
    requires WellLinked(s, live) && FirstOfCluster(s, live, b)
    ensures b in s.info && s.info[b].ino in s.iBno && IsTable(s.disk, s.iBno[s.info[b].ino]) && s.info[b].ino != 0
    ensures var cs := s.disk[s.iBno[s.info[b].ino]].clusters;
            s.info[b].cluster < |cs| && cs[s.info[b].cluster] == Cluster(b, CLUSTER_LEN)
  {
    var tb := s.iBno[s.info[b].ino];
    assert BlockOk(s, live, tb);
    assert RunOk(s, live, s.disk[tb].ino, s.disk[tb].clusters, s.info[b].cluster, 0);
  }

  // ------------------------------------------------------------- the step

  lemma MoveOneValues(live: set<nat>, a: nat, b: nat)
    requires a in live && b !in live
    ensures MoveOne(live, a, b).Values == live - {a} + {b}
  {
    var q := MoveOne(live, a, b);
    assert q[a] == b;
    assert forall x | x in live - {a} :: q[x] == x;
  }

  /** The wanted block is free. */
  method PlaceFree(v: Volume, a: nat, off: nat, ghost live: set<nat>, ghost base: nat) returns (ghost r: map<nat, nat>)
    requires Steady(v, live, base) && a in live && IsTree(v.blocks, a)
    requires 0 < base <= off < v.alloc.unused && !v.alloc.bits[off]
    modifies v`blocks, v`iBno, v.alloc, v.alloc.bits
    ensures Moved(r, old(Snap(v)), live, Snap(v)) && Steady(v, r.Values, base)
    ensures StepMap(r, live, a, off, old(v.alloc.unused)) && OthersStay(r, old(v.blocks), a, off)
    ensures v.alloc.unused == old(v.alloc.unused)
  {
    hide WellLinked, Moved, Patchable, TreePatch, SetBits, Took, TookAt, Gave, FreeBits, Claimed, HonestAll, AllBelow;
    ghost var s, used, size := Snap(v), v.alloc.Used(), v.alloc.bits.Length;
    BitIsUsed(v.alloc.bits[..], off);
    var new_ := v.alloc.GetOffset(off, 1);
    FreeAtOnce(old(v.alloc.bits[..]), off, new_);
    UsedBelow(live, used, v.alloc.unused, size);
    v.blocks := v.blocks[new_ := v.blocks[a]];
    FreePatchable(s, live, a, off, size);
    var ok := MoveBtreeNode(v, new_, a, off);
    UsedBlock(used, v.alloc.unused, size, live, base, a);
    v.alloc.PutBlocks(a, 1);
    r := MoveOne(live, a, off);
    TreeMoved(s, live, a, off);
    MoveOneValues(live, a, off);
    FreeStep(live, a, off, v.alloc.unused);
    PlacedFree(used, v.alloc.unused, size, live, base, a, off);
    MovedLinked(r, s, live, Snap(v));
    HonestMoved(r, s, live, Snap(v));
  }

  lemma BitIsUsed(bits: seq<bool>, b: nat)
    requires b < |bits|
    ensures b in SetBits(bits) <==> bits[b]
  {
  }

  lemma FreeAtOnce(bits: seq<bool>, off: nat, r: nat)
    requires off < |bits| && !bits[off] && |bits| < U32
    requires r != NO_BLOCK ==> FirstFit(bits, off, 1, r) && ClearRun(bits, r, 1) && off <= r
    requires r == NO_BLOCK ==> forall s | off <= s < |bits| :: !ClearRun(bits, s, 1)
    ensures r == off && Range(off, 1) == {off}
  {
    assert ClearRun(bits, off, 1);
  }

  lemma UsedBlock(used: set<nat>, mark: nat, size: nat, live: set<nat>, base: nat, b: nat)
    requires Placed(used, mark, size, live, base) && b in live
    ensures b in used && b < mark <= size
  {
  }

  lemma LiveBelow(used: set<nat>, mark: nat, size: nat, live: set<nat>, base: nat, foot: set<nat>)
    requires Placed(used, mark, size, live, base) && foot <= live
    ensures AllBelow(foot, mark)
  {
  }

  lemma FreeStep(live: set<nat>, a: nat, off: nat, mark: nat)
    requires a in live
    ensures StepMap(MoveOne(live, a, off), live, a, off, mark)
    ensures forall d :: OthersStay(MoveOne(live, a, off), d, a, off)
  {
  }

  lemma PlacedFree(used: set<nat>, mark: nat, size: nat, live: set<nat>, base: nat, a: nat, off: nat)
    requires Placed(used, mark, size, live, base) && a in live && off !in used && off < mark
    ensures Placed(used + {off} - {a}, mark, size, live - {a} + {off}, base) && off !in live
  {
  }

  /** The switch on the type of the block in the way. */
  method SwapIn(v: Volume, a: nat, off: nat, tmp: nat, ghost live: set<nat>)
    requires WellLinked(Snap(v), live) && AllBelow(live, v.alloc.bits.Length + 1)
    requires a in live && IsTree(v.blocks, a) && a != off && off in live && !IsData(v.blocks, off)
    requires tmp !in live && 0 < tmp <= v.alloc.bits.Length && !IsParent(Snap(v), a, off)
             && !LaterSibling(Snap(v), a, off)
    modifies v`blocks, v`iBno
    ensures Moved(Swap(live, a, off, tmp), old(Snap(v)), live, Snap(v))
  {
    hide WellLinked, Moved, AllBelow, LaterSibling, IsParent, TreeOverTree, TreeOverName, TreeOverTable;
    ghost var s := Snap(v);
    LiveBlock(s, live, off);
    match SwitchCase(v.blocks[off]) {
      case 1 =>
        SwapTree(v, a, off, tmp, live);
        TreeOverTreeExact(s, live, a, off, tmp);
      case 2 =>
        SwapName(v, a, off, tmp, live);
        TreeOverNameMoved(s, live, a, off, tmp);
      case _ =>
        SwapTable(v, a, off, tmp, live);
        TreeOverTableMoved(s, live, a, off, tmp);
    }
  }

  /** The wanted block holds a tree node, a name block or a cluster table: it goes to the
      high-water mark. */
  method PlaceOver(v: Volume, a: nat, off: nat, ghost live: set<nat>, ghost base: nat) returns (ghost r: map<nat, nat>)
    requires Steady(v, live, base) && a in live && IsTree(v.blocks, a)
    requires a != off && 0 < base <= off && off in live && !IsData(v.blocks, off)
    requires !IsParent(Snap(v), a, off) && !LaterSibling(Snap(v), a, off)
    requires v.alloc.unused < v.alloc.bits.Length
    modifies v`blocks, v`iBno, v.alloc, v.alloc.bits
    ensures Moved(r, old(Snap(v)), live, Snap(v)) && Steady(v, r.Values, base)
    ensures StepMap(r, live, a, off, old(v.alloc.unused)) && OthersStay(r, old(v.blocks), a, off)
    ensures v.alloc.unused == old(v.alloc.unused) + 1
  {
    hide WellLinked, Moved, SetBits, Took, TookAt, Gave, FreeBits, Claimed, HonestAll, AllBelow, LaterSibling,
         IsParent, Swap, StepMap, Range;
    ghost var s, used, mark, size := Snap(v), v.alloc.Used(), v.alloc.unused, v.alloc.bits.Length;
    BelowMark(used, mark, live, size);
    var tmp := v.alloc.GetOffset(v.alloc.unused, 1);
    RangeOne(tmp);
    UsedBlock(used, mark, size, live, base, a);
    SwapIn(v, a, off, tmp, live);
    v.alloc.PutBlocks(a, 1);
    r := Swap(live, a, off, tmp);
    SwapValues(live, a, off, tmp);
    SwapStep(live, a, off, tmp);
    PlacedOver(used, mark, size, live, base, a);
    MovedLinked(r, s, live, Snap(v));
    HonestMoved(r, s, live, Snap(v));
  }

  lemma BelowMark(used: set<nat>, mark: nat, live: set<nat>, size: nat)
    requires live <= used && AllBelow(used, mark) && mark <= size
    ensures (forall x | x in used :: x < mark) && AllBelow(live, size + 1) && mark !in live
  {
  }

  lemma RangeOne(b: nat)
    ensures Range(b, 1) == {b}
  {
  }

  lemma SwapValues(live: set<nat>, a: nat, b: nat, c: nat)
    requires a in live && b in live && a != b && c !in live
    ensures Swap(live, a, b, c).Values == live - {a} + {c}
  {
    SwapIsCompose(live, a, b, c);
  }

  lemma SwapStep(live: set<nat>, a: nat, off: nat, mark: nat)
    requires a in live
    ensures StepMap(Swap(live, a, off, mark), live, a, off, mark)
    ensures forall d :: OthersStay(Swap(live, a, off, mark), d, a, off)
  {
  }

  lemma PlacedOver(used: set<nat>, mark: nat, size: nat, live: set<nat>, base: nat, a: nat)
    requires Placed(used, mark, size, live, base) && a in live && mark < size
    ensures Placed(used + {mark} - {a}, mark + 1, size, live - {a} + {mark}, base)
  {
  }

  /** The wanted block holds the first block of a cluster of a file: the whole cluster goes
      past the high-water mark. */
  method PlaceOverData(v: Volume, a: nat, off: nat, ghost live: set<nat>, ghost base: nat)
    returns (ghost r: map<nat, nat>)
    requires Steady(v, live, base) && a in live && IsTree(v.blocks, a)
    requires 0 < base <= off && FirstOfCluster(Snap(v), live, off)
    requires v.alloc.unused + 1 + CLUSTER_LEN <= v.alloc.bits.Length
    modifies v`blocks, v`iBno, v`info, v.alloc, v.alloc.bits
    ensures Moved(r, old(Snap(v)), live, Snap(v)) && Steady(v, r.Values, base)
    ensures StepMap(r, live, a, off, old(v.alloc.unused)) && OthersStay(r, old(v.blocks), a, off)
    ensures v.alloc.unused == old(v.alloc.unused) + 1 + CLUSTER_LEN
  {
    hide WellLinked, Moved, SetBits, Took, TookAt, Gave, FreeBits, Claimed, HonestAll, AllBelow, FirstOfCluster,
         TreeOverData, RunSet, Range;
    ghost var s, used, mark, size := Snap(v), v.alloc.Used(), v.alloc.unused, v.alloc.bits.Length;
    BelowMark(used, mark, live, size);
    UsedBlock(used, mark, size, live, base, a);
    var tmp := v.alloc.GetOffset(v.alloc.unused, 1);
    RangeOne(tmp);
    PlacedTmp(used, mark, size, live);
    ghost var run := SwapData(v, a, off, tmp, live);
    RunPast(s, live, used, mark, size, off);
    TreeOverDataMoved(s, live, a, off, tmp, run);
    v.alloc.PutBlocks(a, 1);
    r := SwapRun(live, a, off, run);
    SwapRunValues(s, live, a, off, run);
    SwapRunStep(s, live, a, off, run, mark);
    PlacedOverData(s, used, mark, size, live, base, a, off);
    MovedLinked(r, s, live, Snap(v));
    HonestMoved(r, s, live, Snap(v));
  }

  lemma PlacedTmp(used: set<nat>, mark: nat, size: nat, live: set<nat>)
    requires live <= used && AllBelow(used, mark) && mark < size
    ensures AllBelow(used + {mark}, mark + 1) && live <= used + {mark}
            && (forall x | x in used + {mark} :: x < mark + 1)
    ensures (forall x | x in live :: x < mark) && mark !in live
  {
  }

  /** The old run lies below the mark, the new one above it. */
  lemma RunPast(s: Sys, live: set<nat>, used: set<nat>, mark: nat, size: nat, off: nat)
    requires WellLinked(s, live) && FirstOfCluster(s, live, off) && live <= used && AllBelow(used, mark) && mark < size
    ensures RunSet(mark + 1) !! live && RunSet(off) !! RunSet(mark + 1)
    ensures mark !in RunSet(mark + 1) && mark !in RunSet(off) && RunSet(off) <= live
  {
    hide WellLinked, FirstOfCluster;
    forall x | x in RunSet(off)
      ensures x in live
    {
      ClusterRun(s, live, off, x);
    }
  }

  lemma SwapRunStep(s: Sys, live: set<nat>, a: nat, off: nat, run: nat, mark: nat)
    requires WellLinked(s, live) && FirstOfCluster(s, live, off) && a in live && mark <= run
    ensures StepMap(SwapRun(live, a, off, run), live, a, off, mark)
    ensures OthersStay(SwapRun(live, a, off, run), s.disk, a, off)
  {
    hide WellLinked, FirstOfCluster;
    forall x | off <= x < off + CLUSTER_LEN
      ensures IsData(s.disk, x)
    {
      ClusterRun(s, live, off, x);
    }
  }

  lemma PlacedOverData(s: Sys, used: set<nat>, mark: nat, size: nat, live: set<nat>, base: nat, a: nat, off: nat)
    requires WellLinked(s, live) && FirstOfCluster(s, live, off) && a in live && IsTree(s.disk, a)
    requires Placed(used, mark, size, live, base) && mark + 1 + CLUSTER_LEN <= size
    ensures Placed(used + {mark} + Range(mark + 1, CLUSTER_LEN) - Range(off + 1, CLUSTER_LEN - 1) - {mark} - {a},
                   mark + 1 + CLUSTER_LEN, size, live - {a} - RunSet(off) + {off} + RunSet(mark + 1), base)
  {
    hide WellLinked;
    var tail, rest, run := off + 1, CLUSTER_LEN - 1, mark + 1;
    ClusterRun(s, live, off, a);
    RunPast(s, live, used, mark, size, off);
    RangeIsRun(run);
    assert forall x :: x in RunSet(off) <==> InRun(x, off);
    assert forall x :: x in Range(tail, rest) <==> Within(x, tail, rest);
    assert forall x :: x in RunSet(run) <==> InRun(x, run);
  }

  /** basicbtfs_defrag_btree_node: block a goes to off whatever is there; everything that
      was there or refers to either block follows. */
  method DefragBtreeNode(v: Volume, a: nat, off: nat, ghost live: set<nat>, ghost base: nat)
    returns (ok: bool, off': nat, ghost r: map<nat, nat>)
    requires Steady(v, live, base) && a in live && IsTree(v.blocks, a) && 0 < base <= off <= a
    requires !IsParent(Snap(v), a, off) && !LaterSibling(Snap(v), a, off)
    requires off in live && IsData(v.blocks, off) ==> FirstOfCluster(Snap(v), live, off)
    requires v.alloc.unused + 1 + CLUSTER_LEN <= v.alloc.bits.Length
    modifies v`blocks, v`iBno, v`info, v.alloc, v.alloc.bits
    ensures ok && off' == off + 1
    ensures Moved(r, old(Snap(v)), live, Snap(v)) && Steady(v, r.Values, base)
    ensures StepMap(r, live, a, off, old(v.alloc.unused)) && OthersStay(r, old(v.blocks), a, off)
    ensures old(v.alloc.unused) <= v.alloc.unused <= old(v.alloc.unused) + 1 + CLUSTER_LEN
  {
    hide WellLinked, Moved, SetBits, Took, TookAt, Gave, HonestAll, LaterSibling, IsParent, FirstOfCluster;
    ghost var s := Snap(v);
    UsedBlock(v.alloc.Used(), v.alloc.unused, v.alloc.bits.Length, live, base, a);
    BitIsUsed(v.alloc.bits[..], off);
    if a == off {
      r := MoveOne(live, a, off);
      MovedNowhere(s, live, r);
      Stay(live, a);
    } else {
      var empty := v.alloc.IsRangeEmpty(off, 1);
      if !empty {
        assert v.alloc.bits[off];
        LiveBlock(s, live, off);
      }
      if empty {
        r := PlaceFree(v, a, off, live, base);
      } else if SwitchCase(v.blocks[off]) == 0 {
        HonestAt(v.blocks, live, off);
        r := PlaceOverData(v, a, off, live, base);
      } else {
        HonestAt(v.blocks, live, off);
        r := PlaceOver(v, a, off, live, base);
      }
    }
    ok, off' := true, off + 1;
  }

  lemma HonestAt(d: Disk, live: set<nat>, b: nat)
    requires HonestAll(d, live) && b in live && b in d
    ensures SwitchCase(d[b]) == 0 <==> d[b].DataBlock?
  {
  }

  lemma Stay(live: set<nat>, a: nat)
    requires a in live
    ensures MoveOne(live, a, a).Values == live && StepMap(MoveOne(live, a, a), live, a, a, 0)
    ensures forall mark :: StepMap(MoveOne(live, a, a), live, a, a, mark)
  {
    var r := MoveOne(live, a, a);
    assert forall x | x in live :: r[x] == x;
  }

  /** Moving nothing is a move. */
  lemma MovedNowhere(s: Sys, live: set<nat>, r: map<nat, nat>)
    requires WellLinked(s, live) && r.Keys == live && forall x | x in r :: r[x] == x
    ensures Moved(r, s, live, s)
  {
    hide WellLinked, Renamed, Kids;
    NoZero(s, live);
    forall x | x in live && x in s.disk
      ensures Renamed(r, s.disk[x], s.disk[x])
    {
      RenamedNowhere(s, live, r, x);
    }
  }

  lemma NoZero(s: Sys, live: set<nat>)
    requires WellLinked(s, live)
    ensures 0 !in live && forall i | i in s.iBno :: s.iBno[i] in live
  {
  }

  lemma RenamedNowhere(s: Sys, live: set<nat>, r: map<nat, nat>, x: nat)
    requires WellLinked(s, live) && r.Keys == live && x in live && forall x | x in r :: r[x] == x
    ensures x in s.disk && Renamed(r, s.disk[x], s.disk[x])
  {
    hide WellLinked;
    LiveBlock(s, live, x);
    if s.disk[x].TreeBlock? {
      var ks := Kids(s.disk[x].node);
      assert forall i | 0 <= i < |ks| :: ks[i] in ks;
    } else if s.disk[x].TableBlock? {
      RunsStay(s, live, r, x);
    }
  }
}
