/** Disk blocks by type, and how a B-tree value lies on them. */
module Blocks {
  import opened Entries
  import opened BTree

  /** basicbtfs_btree_node: fixed slot arrays of which only the first nr_of_keys entries
      (and nr_of_keys + 1 children) are live. */
  datatype BNode = BNode(entries: seq<Entry>, children: seq<nat>, parent: nat, treeName: nat,
                         nrOfKeys: nat, nrOfFiles: nat, leaf: bool, root: bool)

  /** basicbtfs_cluster: a run of data blocks; start 0 ends the table. */
  datatype Cluster = Cluster(start: nat, len: nat)

  datatype Block =
    | TreeBlock(node: BNode)
    | NameBlock(first: bool, prev: nat, next: nat, payload: seq<nat>)
    | TableBlock(ino: nat, clusters: seq<Cluster>)
    | DataBlock(content: seq<nat>)

  type Disk = map<nat, Block>

  /** basicbtfs_fileblock_info: the file and the cluster a data block belongs to. */
  datatype FileInfo = FileInfo(ino: nat, cluster: nat)

  /** Where a tree's nodes lie: block numbers in the shape of the tree. */
  datatype Loc = Loc(bno: nat, kids: seq<Loc>)

  function Zeroes<T>(n: nat, z: T): seq<T> { seq(n, _ => z) }

  /** The node as memset and btree_node_init leave it. */
  function NewNode(t: nat, leaf: bool, parent: nat): BNode
    requires 1 <= t
  {
    BNode(Zeroes(2 * t - 1, ZERO_ENTRY), Zeroes(2 * t, 0), parent, 0, 0, 0, leaf, false)
  }

  // ------------------------------------------------------------- footprints

  ghost function Foot(loc: Loc): set<nat>
    decreases loc
  {
    {loc.bno} + FootAll(loc.kids)
  }

  ghost function FootAll(locs: seq<Loc>): set<nat>
    decreases locs
  {
    if locs == [] then {} else Foot(locs[0]) + FootAll(locs[1..])
  }

  /** No block is used twice. */
  ghost predicate Apart(loc: Loc)
    decreases loc
  {
    loc.bno !in FootAll(loc.kids) && ApartAll(loc.kids)
  }

  ghost predicate ApartAll(locs: seq<Loc>)
    decreases locs
  {
    locs == [] || (Apart(locs[0]) && Foot(locs[0]) !! FootAll(locs[1..]) && ApartAll(locs[1..]))
  }

  lemma {:induction false} FootAppend(a: seq<Loc>, b: seq<Loc>)
    ensures FootAll(a + b) == FootAll(a) + FootAll(b)
  {
    if a == [] {
      assert a + b == b;
    } else {
      assert (a + b)[0] == a[0] && (a + b)[1..] == a[1..] + b;
      FootAppend(a[1..], b);
    }
  }

  lemma {:induction false} ApartAppend(a: seq<Loc>, b: seq<Loc>)
    ensures ApartAll(a + b) <==> ApartAll(a) && ApartAll(b) && FootAll(a) !! FootAll(b)
  {
    if a == [] {
      assert a + b == b;
    } else {
      assert (a + b)[0] == a[0] && (a + b)[1..] == a[1..] + b;
      ApartAppend(a[1..], b);
      FootAppend(a[1..], b);
    }
  }

  lemma FootOne(c: Loc)
    ensures FootAll([c]) == Foot(c) && (ApartAll([c]) <==> Apart(c))
  {
    assert [c][1..] == [];
    assert FootAll([]) == {};
  }

  lemma FootTwo(c: Loc, d: Loc)
    ensures FootAll([c, d]) == Foot(c) + Foot(d)
    ensures ApartAll([c, d]) <==> Apart(c) && Apart(d) && Foot(c) !! Foot(d)
  {
    assert [c, d] == [c] + [d];
    FootOne(c);
    FootOne(d);
    FootAppend([c], [d]);
    ApartAppend([c], [d]);
  }

  /** The part of a footprint that lies outside child i. */
  ghost function FootRest(loc: Loc, i: nat): set<nat>
    requires i < |loc.kids|
  {
    {loc.bno} + FootAll(loc.kids[..i]) + FootAll(loc.kids[i + 1..])
  }

  lemma FootAt(loc: Loc, i: nat)
    requires i < |loc.kids|
    ensures Foot(loc) == FootRest(loc, i) + Foot(loc.kids[i])
    ensures loc.bno in FootRest(loc, i) && loc.kids[i].bno in Foot(loc.kids[i])
    ensures Apart(loc) ==> Apart(loc.kids[i]) && Foot(loc.kids[i]) !! FootRest(loc, i)
  {
    var a, c, b := loc.kids[..i], loc.kids[i], loc.kids[i + 1..];
    assert loc.kids == a + ([c] + b);
    FootOne(c);
    FootAppend(a, [c] + b);
    FootAppend([c], b);
    ApartAppend(a, [c] + b);
    ApartAppend([c], b);
  }

  lemma {:induction false} FootMember(locs: seq<Loc>, i: nat)
    requires i < |locs|
    ensures Foot(locs[i]) <= FootAll(locs)
  {
    if i > 0 {
      FootMember(locs[1..], i - 1);
    }
  }

  /** Putting another subtree at child i. */
  lemma FootReplace(loc: Loc, i: nat, c: Loc)
    requires i < |loc.kids|
    ensures Foot(loc.(kids := loc.kids[i := c])) == FootRest(loc, i) + Foot(c)
    ensures Apart(loc) && Apart(c) && Foot(c) !! FootRest(loc, i) ==> Apart(loc.(kids := loc.kids[i := c]))
  {
    var a, b := loc.kids[..i], loc.kids[i + 1..];
    assert loc.kids == a + ([loc.kids[i]] + b) && loc.kids[i := c] == a + ([c] + b);
    FootOne(c);
    FootOne(loc.kids[i]);
    FootAppend(a, [loc.kids[i]] + b);
    FootAppend([loc.kids[i]], b);
    FootAppend(a, [c] + b);
    FootAppend([c], b);
    ApartAppend(a, [c] + b);
    ApartAppend([c], b);
    ApartAppend(a, [loc.kids[i]] + b);
    ApartAppend([loc.kids[i]], b);
  }

  // --------------------------------------------------------- representation

  /** Node n holds the keys of tr and points at the blocks of its children. */
  ghost predicate Holds(t: nat, n: BNode, loc: Loc, tr: Tree) {
    && 1 <= t && |n.entries| == 2 * t - 1 && |n.children| == 2 * t
    && n.nrOfKeys == |tr.keys| <= 2 * t - 1
    && n.entries[..n.nrOfKeys] == tr.keys
    && n.leaf == (tr.kids == [])
    && |loc.kids| == |tr.kids|
    && (tr.kids != [] ==> |tr.kids| == |tr.keys| + 1)
    && forall i | 0 <= i < |tr.kids| :: n.children[i] == loc.kids[i].bno
  }

  ghost predicate Rep(d: Disk, t: nat, loc: Loc, tr: Tree)
    decreases tr, 1
  {
    && loc.bno in d && d[loc.bno].TreeBlock?
    && Holds(t, d[loc.bno].node, loc, tr)
    && RepAll(d, t, loc.kids, tr.kids)
  }

  ghost predicate RepAll(d: Disk, t: nat, locs: seq<Loc>, trs: seq<Tree>)
    decreases trs, 0
  {
    |locs| == |trs| && forall i | 0 <= i < |trs| :: Rep(d, t, locs[i], trs[i])
  }

  /** d and e agree on every block of s. */
  ghost predicate Agree(d: Disk, e: Disk, s: set<nat>) {
    forall b | b in s :: b in d ==> b in e && e[b] == d[b]
  }

  /** Blocks outside its footprint do not matter to a tree. */
  lemma {:induction false} RepFrame(d: Disk, e: Disk, t: nat, loc: Loc, tr: Tree)
    requires Rep(d, t, loc, tr) && Agree(d, e, Foot(loc))
    ensures Rep(e, t, loc, tr)
    decreases tr, 1
  {
    RepAllFrame(d, e, t, loc.kids, tr.kids);
  }

  lemma {:induction false} RepAllFrame(d: Disk, e: Disk, t: nat, locs: seq<Loc>, trs: seq<Tree>)
    requires RepAll(d, t, locs, trs) && Agree(d, e, FootAll(locs))
    ensures RepAll(e, t, locs, trs)
    decreases trs, 0
  {
    forall i | 0 <= i < |trs|
      ensures Rep(e, t, locs[i], trs[i])
    {
      FootMember(locs, i);
      RepFrame(d, e, t, locs[i], trs[i]);
    }
  }

  /** d and e hold the same nodes on s, up to the fields no search reads. */
  ghost predicate SameNodes(d: Disk, e: Disk, s: set<nat>) {
    forall b | b in s && b in d && d[b].TreeBlock? :: b in e && e[b].TreeBlock? && SameNode(d[b].node, e[b].node)
  }

  ghost predicate SameNode(m: BNode, n: BNode) {
    n.entries == m.entries && n.children == m.children && n.nrOfKeys == m.nrOfKeys && n.leaf == m.leaf
  }

  /** parent, root, nr_of_files and tree_name_bno do not matter to a tree. */
  lemma {:induction false} RepSameNodes(d: Disk, e: Disk, t: nat, loc: Loc, tr: Tree)
    requires Rep(d, t, loc, tr) && SameNodes(d, e, Foot(loc))
    ensures Rep(e, t, loc, tr)
    decreases tr
  {
    forall i | 0 <= i < |tr.kids|
      ensures Rep(e, t, loc.kids[i], tr.kids[i])
    {
      FootMember(loc.kids, i);
      RepSameNodes(d, e, t, loc.kids[i], tr.kids[i]);
    }
  }
}
