/** The block graph a defragmenter works on: four kinds of blocks that point at each other,
    inodes that point at roots and tables, and the reverse map from data blocks to files.
    Moving blocks is renaming block numbers throughout this graph. */
module System {
  import opened Entries
  import opened BTree
  import opened Blocks

  /** BASICBTFS_MAX_BLOCKS_PER_CLUSTER */
  const CLUSTER_LEN := 16

  /** Everything a block move reads or writes. */
  datatype Sys = Sys(disk: Disk, iBno: map<nat, nat>, info: map<nat, FileInfo>)

  /** The children a node has. */
  function Kids(n: BNode): seq<nat> {
    if n.leaf || n.nrOfKeys >= |n.children| then [] else n.children[..n.nrOfKeys + 1]
  }

  ghost predicate Distinct(s: seq<nat>) {
    forall i, j | 0 <= i < j < |s| :: s[i] != s[j]
  }

  predicate IsTree(d: Disk, b: nat) { b in d && d[b].TreeBlock? }
  predicate IsName(d: Disk, b: nat) { b in d && d[b].NameBlock? }
  predicate IsTable(d: Disk, b: nat) { b in d && d[b].TableBlock? }
  predicate IsData(d: Disk, b: nat) { b in d && d[b].DataBlock? }

  /** Clusters in use: those before the first one with start 0. */
  function NrClusters(cs: seq<Cluster>): (n: nat)
    ensures n <= |cs| && (n < |cs| ==> cs[n].start == 0)
    ensures forall i | 0 <= i < n :: cs[i].start != 0
  {
    if cs == [] || cs[0].start == 0 then 0 else 1 + NrClusters(cs[1..])
  }

  // -------------------------------------------------------- well-formedness

  /** A root hangs off its inode and leads its name list; any other node hangs off the
      parent it names, and is the parent its children name. */
  ghost predicate TreeOk(s: Sys, live: set<nat>, b: nat, n: BNode) {
    && n.nrOfKeys < |n.children|
    && (n.root ==>
          && n.parent in s.iBno && s.iBno[n.parent] == b
          && n.treeName in live && IsName(s.disk, n.treeName)
          && s.disk[n.treeName].first && s.disk[n.treeName].prev == n.parent)
    && (!n.root ==>
          && n.parent in live && n.parent != b && IsTree(s.disk, n.parent) && b in Kids(s.disk[n.parent].node))
    && Distinct(Kids(n))
    && (forall c | c in Kids(n) ::
          c in live && IsTree(s.disk, c) && !s.disk[c].node.root && s.disk[c].node.parent == b)
    && (n.leaf ==> forall i | 0 <= i <= n.nrOfKeys :: n.children[i] == 0)
  }

  /** A name block is linked in both directions. */
  ghost predicate NameOk(s: Sys, live: set<nat>, b: nat, first: bool, prev: nat, next: nat) {
    && (first ==>
          && prev in s.iBno && s.iBno[prev] in live && IsTree(s.disk, s.iBno[prev])
          && s.disk[s.iBno[prev]].node.root && s.disk[s.iBno[prev]].node.parent == prev
          && s.disk[s.iBno[prev]].node.treeName == b)
    && (!first ==> prev in live && prev != b && IsName(s.disk, prev) && s.disk[prev].next == b)
    && (next != 0 ==>
          && next in live && next != b && IsName(s.disk, next)
          && !s.disk[next].first && s.disk[next].prev == b)
  }

  /** A table belongs to its inode, and its clusters are full runs of its own data. */
  ghost predicate TableOk(s: Sys, live: set<nat>, b: nat, ino: nat, cs: seq<Cluster>) {
    && ino in s.iBno && s.iBno[ino] == b && ino != 0
    && forall c, k | 0 <= c < NrClusters(cs) && 0 <= k < CLUSTER_LEN :: RunOk(s, live, ino, cs, c, k)
  }

  ghost predicate RunOk(s: Sys, live: set<nat>, ino: nat, cs: seq<Cluster>, c: nat, k: nat) {
    && c < |cs| && cs[c].len == CLUSTER_LEN
    && cs[c].start + k in live && IsData(s.disk, cs[c].start + k)
    && cs[c].start + k in s.info && s.info[cs[c].start + k] == FileInfo(ino, c)
  }

  /** A data block is named by the reverse map and lies inside that cluster. */
  ghost predicate DataOk(s: Sys, live: set<nat>, b: nat) {
    && b in s.info && s.info[b].ino in s.iBno && s.info[b].ino != 0
    && s.iBno[s.info[b].ino] in live && IsTable(s.disk, s.iBno[s.info[b].ino])
    && var tb := s.disk[s.iBno[s.info[b].ino]];
       && tb.ino == s.info[b].ino && s.info[b].cluster < NrClusters(tb.clusters)
       && tb.clusters[s.info[b].cluster].start <= b < tb.clusters[s.info[b].cluster].start + CLUSTER_LEN
  }

  ghost predicate BlockOk(s: Sys, live: set<nat>, b: nat) {
    b in s.disk && match s.disk[b]
      case TreeBlock(n) => TreeOk(s, live, b, n)
      case NameBlock(first, prev, next, _) => NameOk(s, live, b, first, prev, next)
      case TableBlock(ino, cs) => TableOk(s, live, b, ino, cs)
      case DataBlock(_) => DataOk(s, live, b)
  }

  /** The inode ino owns block b. */
  ghost predicate Owns(d: Disk, ino: nat, b: nat) {
    || (IsTree(d, b) && d[b].node.root && d[b].node.parent == ino)
    || (IsTable(d, b) && d[b].ino == ino)
  }

  /** Every reference to a live block is known from the block itself. */
  ghost predicate WellLinked(s: Sys, live: set<nat>) {
    && 0 !in live
    && (forall b | b in live :: BlockOk(s, live, b))
    && (forall i | i in s.iBno :: s.iBno[i] in live && Owns(s.disk, i, s.iBno[i]))
  }

  // ---------------------------------------------------------------- renaming

  /** Block y is block x with every reference to a live block renamed by r. */
  ghost predicate Renamed(r: map<nat, nat>, x: Block, y: Block) {
    match x
    case TreeBlock(m) =>
      && y.TreeBlock?
      && var n := y.node;
         && n.entries == m.entries && |n.children| == |m.children| && n.nrOfKeys == m.nrOfKeys
         && n.nrOfFiles == m.nrOfFiles && n.leaf == m.leaf && n.root == m.root
         && (if m.root then n.parent == m.parent && m.treeName in r && n.treeName == r[m.treeName]
             else m.parent in r && n.parent == r[m.parent])
         && |Kids(n)| == |Kids(m)|
         && (forall i | 0 <= i < |Kids(m)| :: Kids(m)[i] in r && Kids(n)[i] == r[Kids(m)[i]])
         && (m.leaf ==> n.children == m.children)
    case NameBlock(first, prev, next, payload) =>
      && y.NameBlock? && y.first == first && y.payload == payload
      && (if first then y.prev == prev else prev in r && y.prev == r[prev])
      && (if next == 0 then y.next == 0 else next in r && y.next == r[next])
    case TableBlock(ino, cs) =>
      && y.TableBlock? && y.ino == ino && |y.clusters| == |cs| && NrClusters(y.clusters) == NrClusters(cs)
      && (forall c, k | 0 <= c < NrClusters(cs) && 0 <= k < CLUSTER_LEN ::
            RunMoved(r, cs[c], y.clusters[c], k))
    case DataBlock(content) => y == x
  }

  /** Block k of a cluster went to block k of the cluster's new place. */
  ghost predicate RunMoved(r: map<nat, nat>, x: Cluster, y: Cluster, k: nat) {
    y.len == x.len && x.start + k in r && r[x.start + k] == y.start + k
  }

  ghost predicate Injective(r: map<nat, nat>) {
    forall a, b | a in r && b in r && a != b :: r[a] != r[b]
  }

  /** State u is state s with the live blocks moved as r says and nothing else changed. */
  ghost predicate Moved(r: map<nat, nat>, s: Sys, live: set<nat>, u: Sys) {
    && r.Keys == live && Injective(r) && 0 !in r.Values
    && (forall b | b in live && b in s.disk :: r[b] in u.disk && Renamed(r, s.disk[b], u.disk[r[b]]))
    && u.iBno.Keys == s.iBno.Keys
    && (forall i | i in s.iBno :: s.iBno[i] in r && u.iBno[i] == r[s.iBno[i]])
    && (forall b | b in live && IsData(s.disk, b) && b in s.info :: r[b] in u.info && u.info[r[b]] == s.info[b])
  }

  function Compose(r: map<nat, nat>, q: map<nat, nat>): map<nat, nat> {
    map b | b in r && r[b] in q :: q[r[b]]
  }

  // ------------------------------------------------------------- what it keeps

  /** What a move says about one block. */
  lemma MovedAt(r: map<nat, nat>, s: Sys, live: set<nat>, u: Sys, b: nat)
    requires WellLinked(s, live) && Moved(r, s, live, u) && b in live
    ensures b in s.disk && b in r && r[b] in r.Values && r[b] != 0 && r[b] in u.disk
    ensures Renamed(r, s.disk[b], u.disk[r[b]]) && BlockOk(s, live, b)
  {
  }

  lemma TableRun(s: Sys, live: set<nat>, b: nat, c: nat, k: nat)
    requires BlockOk(s, live, b) && IsTable(s.disk, b) && c < NrClusters(s.disk[b].clusters) && k < CLUSTER_LEN
    ensures RunOk(s, live, s.disk[b].ino, s.disk[b].clusters, c, k)
  {
  }

  lemma RenamedRun(r: map<nat, nat>, x: Block, y: Block, c: nat, k: nat)
    requires Renamed(r, x, y) && x.TableBlock? && c < NrClusters(x.clusters) && k < CLUSTER_LEN
    ensures y.TableBlock? && NrClusters(y.clusters) == NrClusters(x.clusters) && |y.clusters| == |x.clusters|
    ensures RunMoved(r, x.clusters[c], y.clusters[c], k)
  {
  }

  function MapLoc(r: map<nat, nat>, loc: Loc): Loc {
    Loc(if loc.bno in r then r[loc.bno] else loc.bno, MapLocs(r, loc.kids))
  }

  function MapLocs(r: map<nat, nat>, locs: seq<Loc>): (m: seq<Loc>)
    ensures |m| == |locs| && forall i | 0 <= i < |m| :: m[i] == MapLoc(r, locs[i])
  {
    if locs == [] then [] else [MapLoc(r, locs[0])] + MapLocs(r, locs[1..])
  }

  /** Every tree reads the same after a move, at the renamed blocks. */
  lemma {:induction false} MovedTree(r: map<nat, nat>, s: Sys, live: set<nat>, u: Sys, t: nat, loc: Loc, tr: Tree)
    requires Moved(r, s, live, u) && Rep(s.disk, t, loc, tr) && Foot(loc) <= live
    ensures Rep(u.disk, t, MapLoc(r, loc), tr)
    decreases tr
  {
    var l := MapLoc(r, loc);
    assert loc.bno in Foot(loc);
    forall i | 0 <= i < |tr.kids|
      ensures Rep(u.disk, t, l.kids[i], tr.kids[i])
    {
      FootMember(loc.kids, i);
      MovedTree(r, s, live, u, t, loc.kids[i], tr.kids[i]);
    }
    MovedHolds(r, s, live, u, t, loc, tr);
  }

  lemma MovedHolds(r: map<nat, nat>, s: Sys, live: set<nat>, u: Sys, t: nat, loc: Loc, tr: Tree)
    requires Moved(r, s, live, u) && loc.bno in live && IsTree(s.disk, loc.bno)
    requires Holds(t, s.disk[loc.bno].node, loc, tr) && Foot(loc) <= live
    ensures IsTree(u.disk, MapLoc(r, loc).bno) && Holds(t, u.disk[MapLoc(r, loc).bno].node, MapLoc(r, loc), tr)
  {
    var m, n := s.disk[loc.bno].node, u.disk[r[loc.bno]].node;
    assert Renamed(r, s.disk[loc.bno], u.disk[r[loc.bno]]);
    forall i | 0 <= i < |tr.kids|
      ensures n.children[i] == MapLoc(r, loc).kids[i].bno
    {
      FootMember(loc.kids, i);
      assert Kids(m)[i] == loc.kids[i].bno && Kids(n)[i] == n.children[i];
      assert loc.kids[i].bno in Foot(loc.kids[i]);
    }
  }

  /** The payloads of a chain of name blocks, from b on; fuel bounds its length. */
  ghost predicate Chain(d: Disk, b: nat, payloads: seq<seq<nat>>)
    decreases |payloads|
  {
    if b == 0 then payloads == []
    else IsName(d, b) && payloads != [] && payloads[0] == d[b].payload && Chain(d, d[b].next, payloads[1..])
  }

  /** Every name list reads the same. */
  lemma {:induction false} MovedChain(r: map<nat, nat>, s: Sys, live: set<nat>, u: Sys, b: nat, payloads: seq<seq<nat>>)
    requires WellLinked(s, live) && Moved(r, s, live, u) && b in live && Chain(s.disk, b, payloads)
    ensures Chain(u.disk, r[b], payloads)
    decreases |payloads|
  {
    assert BlockOk(s, live, b) && Renamed(r, s.disk[b], u.disk[r[b]]);
    if s.disk[b].next != 0 {
      MovedChain(r, s, live, u, s.disk[b].next, payloads[1..]);
    }
  }

  /** What block k of cluster c of file ino contains. */
  ghost function FileBlock(s: Sys, ino: nat, c: nat, k: nat): Option<seq<nat>> {
    if ino in s.iBno && IsTable(s.disk, s.iBno[ino]) && c < NrClusters(s.disk[s.iBno[ino]].clusters)
      && IsData(s.disk, s.disk[s.iBno[ino]].clusters[c].start + k)
    then Some(s.disk[s.disk[s.iBno[ino]].clusters[c].start + k].content) else None
  }

  /** Every file reads the same. */
  lemma MovedFile(r: map<nat, nat>, s: Sys, live: set<nat>, u: Sys, ino: nat, c: nat, k: nat)
    requires WellLinked(s, live) && Moved(r, s, live, u)
    requires ino in s.iBno && s.iBno[ino] in live && IsTable(s.disk, s.iBno[ino])
    requires c < NrClusters(s.disk[s.iBno[ino]].clusters) && k < CLUSTER_LEN
    ensures FileBlock(s, ino, c, k).Some? && FileBlock(u, ino, c, k) == FileBlock(s, ino, c, k)
  {
    hide WellLinked, Moved, BlockOk, Renamed, NrClusters;
    var b := s.iBno[ino];
    var cs := s.disk[b].clusters;
    MovedInode(r, s, live, u, ino);
    MovedAt(r, s, live, u, b);
    TableRun(s, live, b, c, k);
    RenamedRun(r, s.disk[b], u.disk[r[b]], c, k);
    MovedAt(r, s, live, u, cs[c].start + k);
    RenamedData(r, s.disk[cs[c].start + k], u.disk[r[cs[c].start + k]]);
  }

  lemma MovedInode(r: map<nat, nat>, s: Sys, live: set<nat>, u: Sys, i: nat)
    requires Moved(r, s, live, u) && i in s.iBno
    ensures s.iBno[i] in r && i in u.iBno && u.iBno[i] == r[s.iBno[i]]
  {
  }

  lemma MovedInfo(r: map<nat, nat>, s: Sys, live: set<nat>, u: Sys, b: nat)
    requires Moved(r, s, live, u) && b in live && IsData(s.disk, b) && b in s.info
    ensures b in r && r[b] in u.info && u.info[r[b]] == s.info[b]
  {
  }

  lemma RenamedData(r: map<nat, nat>, x: Block, y: Block)
    requires Renamed(r, x, y)
    ensures x.DataBlock? ==> y == x
    ensures x.TreeBlock? <==> y.TreeBlock?
    ensures x.NameBlock? <==> y.NameBlock?
    ensures x.TableBlock? <==> y.TableBlock?
  {
  }

  /** Two moves in a row are one move. */
  lemma MovedTwice(r: map<nat, nat>, q: map<nat, nat>, s: Sys, live: set<nat>, u: Sys, w: Sys)
    requires WellLinked(s, live) && Moved(r, s, live, u) && Moved(q, u, r.Values, w)
    ensures Moved(Compose(r, q), s, live, w)
  {
    hide Renamed, WellLinked, Injective;
    var p := Compose(r, q);
    assert p.Keys == live;
    ComposeInjective(r, q);
    forall b | b in live && b in s.disk
      ensures p[b] in w.disk && Renamed(p, s.disk[b], w.disk[p[b]])
    {
      RenamedTwice(r, q, s.disk[b], u.disk[r[b]], w.disk[p[b]]);
    }
    forall b | b in live && IsData(s.disk, b) && b in s.info
      ensures p[b] in w.info && w.info[p[b]] == s.info[b]
    {
      RenamedData(r, s.disk[b], u.disk[r[b]]);
    }
  }

  lemma ComposeInjective(r: map<nat, nat>, q: map<nat, nat>)
    requires Injective(r) && Injective(q) && q.Keys == r.Values && 0 !in q.Values
    ensures Injective(Compose(r, q)) && 0 !in Compose(r, q).Values && Compose(r, q).Keys == r.Keys
  {
  }

  lemma RenamedTwice(r: map<nat, nat>, q: map<nat, nat>, x: Block, y: Block, z: Block)
    requires Renamed(r, x, y) && Renamed(q, y, z) && q.Keys == r.Values && 0 !in r.Values && 0 !in q.Values
    ensures Renamed(Compose(r, q), x, z)
  {
    var p := Compose(r, q);
    match x
    case TreeBlock(m) =>
      forall i | 0 <= i < |Kids(m)|
        ensures Kids(m)[i] in p && Kids(z.node)[i] == p[Kids(m)[i]]
      {
        assert Kids(y.node)[i] == r[Kids(m)[i]];
      }
    case NameBlock(first, prev, next, payload) =>
    case TableBlock(ino, cs) =>
      forall c, k | 0 <= c < NrClusters(cs) && 0 <= k < CLUSTER_LEN
        ensures RunMoved(p, cs[c], z.clusters[c], k)
      {
        assert RunMoved(r, cs[c], y.clusters[c], k) && RunMoved(q, y.clusters[c], z.clusters[c], k);
      }
    case DataBlock(_) =>
  }

  // ------------------------------------------- moving keeps the graph linked

  lemma MovedLinked(r: map<nat, nat>, s: Sys, live: set<nat>, u: Sys)
    requires WellLinked(s, live) && Moved(r, s, live, u)
    ensures WellLinked(u, r.Values)
  {
    forall b' | b' in r.Values
      ensures BlockOk(u, r.Values, b')
    {
      var b :| b in r && r[b] == b';
      MovedBlockOk(r, s, live, u, b);
    }
    forall i | i in u.iBno
      ensures u.iBno[i] in r.Values && Owns(u.disk, i, u.iBno[i])
    {
      MovedOwner(r, s, live, u, i);
    }
  }

  lemma MovedBlockOk(r: map<nat, nat>, s: Sys, live: set<nat>, u: Sys, b: nat)
    requires WellLinked(s, live) && Moved(r, s, live, u) && b in live
    ensures r[b] in u.disk && BlockOk(u, r.Values, r[b])
  {
    hide WellLinked, Moved, Renamed, TreeOk, NameOk, TableOk, DataOk;
    MovedAt(r, s, live, u, b);
    match s.disk[b]
    case TreeBlock(n) => MovedTreeOk(r, s, live, u, b);
    case NameBlock(first, prev, next, _) => MovedNameOk(r, s, live, u, b);
    case TableBlock(ino, cs) => MovedTableOk(r, s, live, u, b);
    case DataBlock(_) => MovedDataOk(r, s, live, u, b);
  }

  lemma MovedTreeOk(r: map<nat, nat>, s: Sys, live: set<nat>, u: Sys, b: nat)
    requires WellLinked(s, live) && Moved(r, s, live, u) && b in live && IsTree(s.disk, b)
    ensures IsTree(u.disk, r[b]) && TreeOk(u, r.Values, r[b], u.disk[r[b]].node)
  {
    var m, n := s.disk[b].node, u.disk[r[b]].node;
    assert BlockOk(s, live, b) && Renamed(r, s.disk[b], u.disk[r[b]]);
    if m.root {
      assert Renamed(r, s.disk[m.treeName], u.disk[r[m.treeName]]);
    } else {
      MovedChild(r, s, live, u, m.parent, b);
    }
    forall c' | c' in Kids(n)
      ensures c' in r.Values && IsTree(u.disk, c') && !u.disk[c'].node.root && u.disk[c'].node.parent == r[b]
    {
      var i :| 0 <= i < |Kids(n)| && Kids(n)[i] == c';
      var c := Kids(m)[i];
      assert c in Kids(m) && c' == r[c];
      assert Renamed(r, s.disk[c], u.disk[r[c]]);
    }
  }

  /** A child of a node is still its child under its new number. */
  lemma MovedChild(r: map<nat, nat>, s: Sys, live: set<nat>, u: Sys, p: nat, c: nat)
    requires Moved(r, s, live, u) && p in live && c in live && IsTree(s.disk, p) && c in Kids(s.disk[p].node)
    ensures IsTree(u.disk, r[p]) && r[c] in Kids(u.disk[r[p]].node)
  {
    assert Renamed(r, s.disk[p], u.disk[r[p]]);
    var m, n := s.disk[p].node, u.disk[r[p]].node;
    var i :| 0 <= i < |Kids(m)| && Kids(m)[i] == c;
    assert Kids(n)[i] == r[c];
  }

  lemma MovedNameOk(r: map<nat, nat>, s: Sys, live: set<nat>, u: Sys, b: nat)
    requires WellLinked(s, live) && Moved(r, s, live, u) && b in live && IsName(s.disk, b)
    ensures IsName(u.disk, r[b])
    ensures NameOk(u, r.Values, r[b], u.disk[r[b]].first, u.disk[r[b]].prev, u.disk[r[b]].next)
  {
    var x := s.disk[b];
    assert BlockOk(s, live, b) && Renamed(r, x, u.disk[r[b]]);
    if x.first {
      assert Renamed(r, s.disk[s.iBno[x.prev]], u.disk[r[s.iBno[x.prev]]]);
    } else {
      assert Renamed(r, s.disk[x.prev], u.disk[r[x.prev]]);
    }
    if x.next != 0 {
      assert Renamed(r, s.disk[x.next], u.disk[r[x.next]]);
    }
  }

  lemma MovedTableOk(r: map<nat, nat>, s: Sys, live: set<nat>, u: Sys, b: nat)
    requires WellLinked(s, live) && Moved(r, s, live, u) && b in live && IsTable(s.disk, b)
    ensures IsTable(u.disk, r[b]) && TableOk(u, r.Values, r[b], u.disk[r[b]].ino, u.disk[r[b]].clusters)
  {
    hide WellLinked, Renamed, BlockOk, NrClusters, Moved;
    MovedAt(r, s, live, u, b);
    TableOwner(s, live, b);
    MovedInode(r, s, live, u, s.disk[b].ino);
    RenamedTable(r, s.disk[b], u.disk[r[b]]);
    var cs, cs' := s.disk[b].clusters, u.disk[r[b]].clusters;
    forall c, k | 0 <= c < NrClusters(cs') && 0 <= k < CLUSTER_LEN
      ensures RunOk(u, r.Values, s.disk[b].ino, cs', c, k)
    {
      TableRun(s, live, b, c, k);
      RenamedRun(r, s.disk[b], u.disk[r[b]], c, k);
      MovedAt(r, s, live, u, cs[c].start + k);
      RenamedData(r, s.disk[cs[c].start + k], u.disk[r[cs[c].start + k]]);
      MovedInfo(r, s, live, u, cs[c].start + k);
    }
  }

  lemma TableOwner(s: Sys, live: set<nat>, b: nat)
    requires BlockOk(s, live, b) && IsTable(s.disk, b)
    ensures s.disk[b].ino in s.iBno && s.iBno[s.disk[b].ino] == b && s.disk[b].ino != 0
  {
  }

  lemma RenamedTable(r: map<nat, nat>, x: Block, y: Block)
    requires Renamed(r, x, y) && x.TableBlock?
    ensures y.TableBlock? && y.ino == x.ino && NrClusters(y.clusters) == NrClusters(x.clusters)
  {
  }

  lemma MovedDataOk(r: map<nat, nat>, s: Sys, live: set<nat>, u: Sys, b: nat)
    requires WellLinked(s, live) && Moved(r, s, live, u) && b in live && IsData(s.disk, b)
    ensures IsData(u.disk, r[b]) && DataOk(u, r.Values, r[b])
  {
    assert BlockOk(s, live, b) && Renamed(r, s.disk[b], u.disk[r[b]]);
    var i, c := s.info[b].ino, s.info[b].cluster;
    var tb := s.iBno[i];
    var cs := s.disk[tb].clusters;
    assert Renamed(r, s.disk[tb], u.disk[r[tb]]);
    assert RunMoved(r, cs[c], u.disk[r[tb]].clusters[c], b - cs[c].start);
  }

  lemma MovedOwner(r: map<nat, nat>, s: Sys, live: set<nat>, u: Sys, i: nat)
    requires WellLinked(s, live) && Moved(r, s, live, u) && i in u.iBno
    ensures u.iBno[i] in r.Values && Owns(u.disk, i, u.iBno[i])
  {
    var b := s.iBno[i];
    assert Owns(s.disk, i, b) && Renamed(r, s.disk[b], u.disk[r[b]]);
  }
}
