/** The defragmenter's block moves (defrag.h): the four routines that repair references, the
    step that puts a tree node at a wanted block, and the preorder walk over a whole tree. */
module Defrag {
  import opened Blocks
  import opened Bitmap
  import opened DiskTree
  import opened System
  import opened Relocate
  import opened DefragStep

  ghost function Snap(v: Volume): Sys
    reads v
  {
    Sys(v.blocks, v.iBno, v.info)
  }

  /** block_type_id: tree 1, name list 2, table 3; in a data block the same four bytes are
      just the beginning of the content. */
  function TypeId(x: Block): nat {
    match x
    case TreeBlock(_) => 1
    case NameBlock(_, _, _, _) => 2
    case TableBlock(_, _) => 3
    case DataBlock(content) => FirstWord(content)
  }

  function FirstWord(content: seq<nat>): nat {
    if |content| < 4 then 0
    else content[0] + 0x100 * content[1] + 0x1_0000 * content[2] + 0x100_0000 * content[3]
  }

  /** The case the switch on block_type_id takes. */
  function SwitchCase(x: Block): nat {
    if TypeId(x) == 1 then 1 else if TypeId(x) == 2 then 2 else if TypeId(x) == 3 then 3 else 0
  }

  function Kind(x: Block): nat {
    match x
    case TreeBlock(_) => 1
    case NameBlock(_, _, _, _) => 2
    case TableBlock(_, _) => 3
    case DataBlock(_) => 0
  }

  /** Not a data block whose content begins with the word 1, 2 or 3. */
  predicate Honest(x: Block) { x.DataBlock? ==> !(1 <= FirstWord(x.content) <= 3) }

  /** Those are the blocks the switch recognises. */
  lemma SwitchExact(x: Block)
    ensures SwitchCase(x) == Kind(x) <==> Honest(x)
  {
  }

  // ------------------------------------------------------ reference repair

  /** What the node at block `at` points at exists and is a tree block other than itself. */
  ghost predicate Patchable(s: Sys, size: nat, at: nat) {
    && IsTree(s.disk, at)
    && var n := s.disk[at].node;
       && n.nrOfKeys < |n.children|
       && (n.root ==> n.parent in s.iBno && 0 < s.iBno[n.parent] <= size)
       && (!n.root ==> n.parent != at && 0 < n.parent <= size && IsTree(s.disk, n.parent)
                       && s.disk[n.parent].node.nrOfKeys < |s.disk[n.parent].node.children|)
       && forall c | c in Kids(n) :: c != at && 0 < c <= size && IsTree(s.disk, c)
  }

  /** basicbtfs_defrag_move_btree_node */
  method MoveBtreeNode(v: Volume, at: nat, cur: nat, new_: nat) returns (ok: bool)
    requires Patchable(Snap(v), v.alloc.bits.Length, at)
    modifies v`blocks, v`iBno
    ensures ok && Snap(v) == TreePatch(old(Snap(v)), old(v.blocks[at].node), cur, new_)
  {
    var n, size := v.blocks[at].node, v.alloc.bits.Length;
    ghost var s := Snap(v);
    if n.root {
      if v.iBno[n.parent] == 0 || v.iBno[n.parent] > size {
        return false;
      }
      v.iBno := v.iBno[n.parent := new_];
    } else {
      if n.parent == 0 || n.parent > size {
        return false;
      }
      var p := v.blocks[n.parent].node;
      var cs := ReplaceFirst(p.children, p.nrOfKeys + 1, cur, new_);
      v.blocks := v.blocks[n.parent := TreeBlock(p.(children := cs))];
    }
    if !n.leaf {
      ok := AdoptChildren(v, n, at, new_);
    }
    ok := true;
    NodePatched(s, n, cur, new_, v.blocks);
  }

  /** The slot and the parent fields are the whole patch. */
  lemma NodePatched(s: Sys, n: BNode, cur: nat, new_: nat, d: Disk)
    requires d.Keys == s.disk.Keys
    requires !n.root ==> IsTree(s.disk, n.parent)
    requires var e := if n.root then s.disk
             else s.disk[n.parent := TreeBlock(PatchSlot(s.disk[n.parent].node, cur, new_))];
             forall b | b in d :: d[b] ==
               if b in Kids(n) && e[b].TreeBlock? then TreeBlock(e[b].node.(parent := new_)) else e[b]
    ensures d == TreePatch(s, n, cur, new_).disk
  {
    hide PatchSlot, Kids;
  }

  /** The second loop of the same routine. */
  method AdoptChildren(v: Volume, n: BNode, at: nat, new_: nat) returns (ok: bool)
    requires n.nrOfKeys < |n.children| && !n.leaf
    requires forall c | c in Kids(n) :: 0 < c <= v.alloc.bits.Length && IsTree(v.blocks, c)
    modifies v`blocks
    ensures ok && v.blocks.Keys == old(v.blocks.Keys)
    ensures forall b | b in v.blocks :: v.blocks[b] ==
              if b in Kids(n) && old(v.blocks)[b].TreeBlock?
              then TreeBlock(old(v.blocks)[b].node.(parent := new_))
              else old(v.blocks)[b]
  {
    var index, size := 0, v.alloc.bits.Length;
    while index <= n.nrOfKeys
      invariant index <= n.nrOfKeys + 1 && v.blocks.Keys == old(v.blocks.Keys)
      invariant forall b | b in v.blocks :: v.blocks[b] ==
                  if b in n.children[..index] && old(v.blocks)[b].TreeBlock?
                  then TreeBlock(old(v.blocks)[b].node.(parent := new_)) else old(v.blocks)[b]
    {
      assert n.children[index] == Kids(n)[index] && Kids(n)[index] in Kids(n);
      if n.children[index] == 0 || n.children[index] > size {
        return false;
      }
      var child := v.blocks[n.children[index]].node;
      v.blocks := v.blocks[n.children[index] := TreeBlock(child.(parent := new_))];
      assert n.children[..index + 1] == n.children[..index] + [n.children[index]];
      index := index + 1;
    }
    assert n.children[..index] == Kids(n);
    ok := true;
  }

  /** for (index = 0; index <= nr_of_keys; index++) if (children[index] == cur) { ...; break; } */
  method ReplaceFirst(s: seq<nat>, n: nat, cur: nat, new_: nat) returns (r: seq<nat>)
    requires n <= |s|
    ensures r == if FirstOf(s, n, cur) < n then s[FirstOf(s, n, cur) := new_] else s
  {
    r := s;
    var index := 0;
    while index < n && s[index] != cur
      invariant index <= n && forall j | 0 <= j < index :: s[j] != cur
    {
      index := index + 1;
    }
    if index < n {
      FirstIs(s, n, cur, index);
      r := s[index := new_];
    }
  }

  /** basicbtfs_defrag_move_namelist */
  method MoveNamelist(v: Volume, at: nat, new_: nat) returns (ok: bool)
    requires IsName(v.blocks, at)
    requires var x, size := v.blocks[at], v.alloc.bits.Length;
             && (x.first ==> x.prev in v.iBno && 0 < v.iBno[x.prev] <= size && IsTree(v.blocks, v.iBno[x.prev]))
             && (!x.first ==> 0 < x.prev <= size && IsName(v.blocks, x.prev))
             && (x.next != 0 ==> x.next <= size && IsName(v.blocks, x.next))
    modifies v`blocks
    ensures var x := old(v.blocks[at]);
            ok && Snap(v) == NamePatch(old(Snap(v)), x.first, x.prev, x.next, new_)
  {
    var x, size := v.blocks[at], v.alloc.bits.Length;
    ghost var s := Snap(v);
    if x.first {
      var root := v.iBno[x.prev];
      if root == 0 || root > size {
        return false;
      }
      v.blocks := v.blocks[root := TreeBlock(v.blocks[root].node.(treeName := new_))];
    } else {
      if x.prev == 0 || x.prev > size {
        return false;
      }
      v.blocks := v.blocks[x.prev := v.blocks[x.prev].(next := new_)];
    }
    if x.next != 0 {
      if x.next == 0 || x.next > size {
        assert false;
      }
      v.blocks := v.blocks[x.next := v.blocks[x.next].(prev := new_)];
    }
    assert v.blocks == NamePatch(s, x.first, x.prev, x.next, new_).disk;
    ok := true;
  }

  /** basicbtfs_defrag_move_cluster_table */
  method MoveClusterTable(v: Volume, at: nat, new_: nat) returns (ok: bool)
    requires IsTable(v.blocks, at)
    modifies v`iBno
    ensures ok <==> 0 < new_ <= v.alloc.bits.Length
    ensures ok ==> Snap(v) == TablePatch(old(Snap(v)), v.blocks[at].ino, new_)
    ensures !ok ==> Snap(v) == old(Snap(v))
  {
    if new_ == 0 || new_ > v.alloc.bits.Length {
      return false;
    }
    v.iBno := v.iBno[v.blocks[at].ino := new_];
    ok := true;
  }

  /** basicbtfs_defrag_move_file_block: the cluster that starts at block b, whose first
      block has been copied to c, goes to a fresh run past the high-water mark. */
  method MoveFileBlock(v: Volume, b: nat, c: nat) returns (ok: bool, run: nat)
    requires v.alloc.Valid() && MovableCluster(Snap(v), b) && IsData(v.blocks, c)
    requires v.alloc.unused + CLUSTER_LEN <= v.alloc.bits.Length && 0 < v.alloc.unused && c < v.alloc.bits.Length
    requires forall x | x in v.alloc.Used() :: x < v.alloc.unused
    requires b + CLUSTER_LEN <= v.alloc.unused && v.iBno[v.info[b].ino] < v.alloc.unused && c < v.alloc.unused
    modifies v`blocks, v`info, v.alloc, v.alloc.bits
    ensures ok && v.alloc.Valid() && run == old(v.alloc.unused) && v.alloc.unused == run + CLUSTER_LEN
    ensures v.alloc.Used() == old(v.alloc.Used()) + Range(run, CLUSTER_LEN) - Range(b + 1, CLUSTER_LEN - 1) - {c}
    ensures Snap(v) == DataPatchFrom(old(Snap(v)), b, c, run)
  {
    hide SetBits, Took, TookAt, Gave, FreeBits, Range, Copied, DataPatchFrom, ClearRun, FirstFit;
    var info := v.info[b];
    ghost var s := Snap(v);
    var table := v.iBno[info.ino];
    var cl := v.blocks[table].clusters[info.cluster];
    run := v.alloc.GetOffset(v.alloc.unused, cl.len);
    assert forall x | cl.start <= x < cl.start + cl.len :: InRun(x, b);
    CopyCluster(v, cl.start, cl.len, c, run);
    v.alloc.PutBlocks(cl.start + 1, cl.len - 1);
    v.alloc.PutBlocks(c, 1);
    RelinkCluster(v, s, table, b, c, run);
    ok := true;
  }

  /** The table learns the new start, the reverse map the new blocks. */
  method RelinkCluster(v: Volume, ghost s: Sys, table: nat, b: nat, c: nat, run: nat)
    requires MovableCluster(s, b) && IsData(s.disk, c) && b + CLUSTER_LEN <= run && c < run
    requires b in v.info && v.info == s.info && v.iBno == s.iBno && table == s.iBno[s.info[b].ino] < run
    requires v.blocks.Keys == s.disk.Keys + Range(run, CLUSTER_LEN)
    requires forall x | x in v.blocks :: v.blocks[x] == Copied(s.disk, x, b, c, run, CLUSTER_LEN)
    modifies v`blocks, v`info
    ensures Snap(v) == DataPatchFrom(s, b, c, run)
  {
    hide Range, Copied, DataPatchFrom;
    var info := v.info[b];
    CopiedBelow(s.disk, table, b, c, run, CLUSTER_LEN);
    var tb := v.blocks[table];
    var moved := tb.clusters[info.cluster := Cluster(run, tb.clusters[info.cluster].len)];
    v.blocks := v.blocks[table := tb.(clusters := moved)];
    Renumber(v, b, run, info);
    ClusterCopied(s, b, c, run, v.blocks, v.info);
  }

  /** Block x after i blocks of the run at start have been copied to run, the first from c. */
  ghost function Copied(d: Disk, x: nat, start: nat, c: nat, run: nat, i: nat): Block {
    var from := if x == run then c else if run < x < run + i then start + (x - run) else x;
    if from in d then d[from] else DataBlock([])
  }

  /** The copies: block 0 from c, the others from the old run. */
  method CopyCluster(v: Volume, start: nat, len: nat, c: nat, run: nat)
    requires 0 < len && c in v.blocks && start + len <= run && c < run
    requires forall x | start <= x < start + len :: x in v.blocks
    modifies v`blocks
    ensures v.blocks.Keys == old(v.blocks).Keys + Range(run, len)
    ensures forall x | x in v.blocks :: v.blocks[x] == Copied(old(v.blocks), x, start, c, run, len)
  {
    hide Range, Copied;
    ghost var d := v.blocks;
    v.blocks := v.blocks[run := v.blocks[c]];
    var i := 1;
    RangeStep(run, 0);
    CopiedFirst(d, v.blocks, start, c, run);
    while i < len
      invariant 1 <= i <= len
      invariant v.blocks.Keys == d.Keys + Range(run, i)
      invariant forall x | x in v.blocks :: v.blocks[x] == Copied(d, x, start, c, run, i)
    {
      CopiedBelow(d, start + i, start, c, run, i);
      ghost var before := v.blocks;
      v.blocks := v.blocks[run + i := v.blocks[start + i]];
      CopiedNext(d, before, v.blocks, start, c, run, i);
      RangeStep(run, i);
      i := i + 1;
    }
  }

  lemma CopiedFirst(d: Disk, e: Disk, start: nat, c: nat, run: nat)
    requires c in d && e == d[run := d[c]]
    ensures forall x | x in e :: e[x] == Copied(d, x, start, c, run, 1)
  {
  }

  /** One block more. */
  lemma CopiedNext(d: Disk, e: Disk, f: Disk, start: nat, c: nat, run: nat, i: nat)
    requires 1 <= i && start + i in e && start + i < run && start + i in d && e[start + i] == d[start + i]
    requires f == e[run + i := e[start + i]]
    requires forall x | x in e :: e[x] == Copied(d, x, start, c, run, i)
    ensures forall x | x in f :: f[x] == Copied(d, x, start, c, run, i + 1)
  {
  }

  lemma CopiedBelow(d: Disk, x: nat, start: nat, c: nat, run: nat, i: nat)
    requires x < run && x in d
    ensures Copied(d, x, start, c, run, i) == d[x]
  {
  }

  lemma RangeStep(a: nat, i: nat)
    ensures Range(a, i + 1) == Range(a, i) + {a + i} && Range(a, 0) == {}
    ensures a + i !in Range(a, i)
  {
  }

  /** The reverse map: the old run belongs to nobody, the new one to the file. */
  method Renumber(v: Volume, b: nat, run: nat, info: FileInfo)
    requires b + CLUSTER_LEN <= run
    modifies v`info
    ensures v.info.Keys == old(v.info).Keys + RunSet(b) + RunSet(run)
    ensures forall x | x in v.info :: v.info[x] ==
              if run <= x < run + CLUSTER_LEN then info
              else if b <= x < b + CLUSTER_LEN then FileInfo(0, 0)
              else old(v.info)[x]
  {
    ghost var old_ := v.info;
    var i := 0;
    while i < CLUSTER_LEN
      invariant i <= CLUSTER_LEN
      invariant forall x :: x in v.info <==> x in old_ || b <= x < b + i || run <= x < run + i
      invariant forall x | x in v.info ::
        v.info[x] == if run <= x < run + i then info else if b <= x < b + i then FileInfo(0, 0) else old_[x]
    {
      v.info := v.info[b + i := FileInfo(0, 0)][run + i := info];
      i := i + 1;
    }
  }

  /** The loops' outcome is the cluster move. */
  lemma ClusterCopied(s: Sys, b: nat, c: nat, run: nat, d: Disk, info: map<nat, FileInfo>)
    requires MovableCluster(s, b) && c in s.disk && b + CLUSTER_LEN <= run && c < run
    requires var tb := s.iBno[s.info[b].ino]; var x := s.disk[tb];
             && tb < run && tb in d && d.Keys == s.disk.Keys + Range(run, CLUSTER_LEN)
             && d[tb] == x.(clusters := x.clusters[s.info[b].cluster := Cluster(run, CLUSTER_LEN)])
             && forall y | y in d && y != tb :: d[y] == Copied(s.disk, y, b, c, run, CLUSTER_LEN)
    requires info.Keys == s.info.Keys + RunSet(b) + RunSet(run)
    requires forall x | x in info :: info[x] ==
               if run <= x < run + CLUSTER_LEN then s.info[b]
               else if b <= x < b + CLUSTER_LEN then FileInfo(0, 0)
               else s.info[x]
    ensures Sys(d, s.iBno, info) == DataPatchFrom(s, b, c, run)
  {
    hide Range, RunSet, Copied, DataPatch;
    RangeIsRun(run);
    var u := DataPatchFrom(s, b, c, run);
    var tb := s.iBno[s.info[b].ino];
    assert s.info[b] == FileInfo(s.info[b].ino, s.info[b].cluster);
    DataPatchInfo(s, b, run);
    assert info == DataPatch(s, b, run).info;
    forall y | y in d
      ensures y in u.disk && d[y] == u.disk[y]
    {
      DataPatchAt(s, b, run, y);
      RunSetIs(y, run);
      if y != tb {
        CopiedIs(s.disk, y, b, c, run);
      }
    }
    forall y | y in u.disk
      ensures y in d
    {
      DataPatchAt(s, b, run, y);
      RunSetIs(y, run);
    }
    assert d == u.disk;
  }

  lemma DataPatchInfo(s: Sys, b: nat, run: nat)
    requires MovableCluster(s, b)
    ensures var u := DataPatch(s, b, run);
            && u.iBno == s.iBno && u.info.Keys == s.info.Keys + RunSet(b) + RunSet(run)
            && forall x | x in u.info :: u.info[x] ==
                 if run <= x < run + CLUSTER_LEN then FileInfo(s.info[b].ino, s.info[b].cluster)
                 else if b <= x < b + CLUSTER_LEN then FileInfo(0, 0) else s.info[x]
  {
    assert forall x :: (x in RunSet(b) <==> InRun(x, b)) && (x in RunSet(run) <==> InRun(x, run));
  }

  /** After all blocks have been copied. */
  lemma CopiedIs(d: Disk, y: nat, b: nat, c: nat, run: nat)
    requires c in d && (forall x | InRun(x, b) :: x in d) && (y in d || InRun(y, run)) && b + CLUSTER_LEN <= run
    ensures InRun(y, run) ==> b + (y - run) in d
    ensures Copied(d, y, b, c, run, CLUSTER_LEN) ==
            if y == run then d[c] else if InRun(y, run) then d[b + (y - run)] else d[y]
  {
    if InRun(y, run) { assert InRun(b + (y - run), b); }
  }

  lemma RangeIsRun(a: nat)
    ensures Range(a, CLUSTER_LEN) == RunSet(a)
  {
    assert forall x :: x in Range(a, CLUSTER_LEN) <==> Within(x, a, CLUSTER_LEN);
    assert forall x :: x in RunSet(a) <==> InRun(x, a);
  }

  /** Block b starts a full cluster of its file, all of whose blocks exist. */
  ghost predicate MovableCluster(s: Sys, b: nat) {
    && b in s.info && s.info[b].ino in s.iBno && IsTable(s.disk, s.iBno[s.info[b].ino])
    && s.info[b].cluster < |s.disk[s.iBno[s.info[b].ino]].clusters|
    && s.disk[s.iBno[s.info[b].ino]].clusters[s.info[b].cluster] == Cluster(b, CLUSTER_LEN)
    && !InRun(s.iBno[s.info[b].ino], b) && s.info[b].ino != 0 && b != 0
    && forall x | InRun(x, b) :: x in s.disk
  }
}
