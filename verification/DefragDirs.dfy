/** Directories in the block graph, and what a run of moves and retellings keeps of them. */
module DefragDirs {
  import opened Entries
  import opened BTree
  import opened Blocks
  import opened System
  import opened DiskTree
  import opened DefragTree
  import opened NameRecords
  import opened NameBlocks
  import opened NameCompact
  import opened Wording
  import opened NamePhases
  import NameList
  import Directory

  /** A directory on the volume: its inode, its tree and the blocks of its name list. */
  datatype DirState = DirState(ino: nat, loc: Loc, tr: Tree, ht: nat, names: seq<nat>, recs: seq<seq<Rec>>)

  // ------------------------------------------------------------- a directory

  ghost predicate HasFile(es: seq<Entry>, x: nat, ino: nat) {
    exists i | 0 <= i < |es| :: es[i].hash == x && es[i].ino == ino
  }

  ghost predicate HasRecord(h: Hash, ls: seq<Rec>, x: nat) {
    exists r :: r in ls && h(ItemOf(r).name) == x
  }

  /** Entries and live records correspond one to one, wherever the entries say these are. */
  ghost predicate Matched(h: Hash, es: seq<Entry>, ls: seq<Rec>) {
    && Distinguished(h, ls)
    && (forall r | r in ls :: Directory.IsIno(r.ino) && HasFile(es, h(ItemOf(r).name), r.ino))
    && (forall e | e in es :: HasRecord(h, ls, e.hash))
  }

  /** Block i of the list: its records and its successor. */
  ghost predicate RollAt(d: Disk, live: set<nat>, names: seq<nat>, recs: seq<seq<Rec>>, i: nat)
    requires i < |names| == |recs|
  {
    && names[i] in live && names[i] != 0
    && HoldsRecs(d, names[i], recs[i])
    && d[names[i]].next == NameList.NextOf(names, i)
  }

  ghost predicate Rolled(d: Disk, live: set<nat>, names: seq<nat>, recs: seq<seq<Rec>>) {
    && |names| == |recs| >= 1
    && NameList.NoRepeats(names)
    && forall i | 0 <= i < |names| :: RollAt(d, live, names, recs, i)
  }

  ghost predicate DirAt(s: Sys, live: set<nat>, t: nat, h: Hash, p: DirState) {
    && p.ino in s.iBno && s.iBno[p.ino] == p.loc.bno && Indexed(s.disk, t, p.loc, p.tr, p.ht) && Foot(p.loc) <= live
    && IsTree(s.disk, p.loc.bno) && s.disk[p.loc.bno].node.root
    && Rolled(s.disk, live, p.names, p.recs) && s.disk[p.loc.bno].node.treeName == p.names[0]
    && Matched(h, Flat(p.tr), NameList.AllLive(p.recs))
  }

  ghost function NameSet(names: seq<nat>): set<nat> { set x | x in names }

  /** The blocks of a directory. */
  ghost function DirBlocks(p: DirState): set<nat> { Foot(p.loc) + NameSet(p.names) }

  // ------------------------------------------------------- moving a directory

  function MapNames(r: map<nat, nat>, names: seq<nat>): (m: seq<nat>)
    ensures |m| == |names| && forall i | 0 <= i < |m| :: m[i] == if names[i] in r then r[names[i]] else names[i]
  {
    seq(|names|, i requires 0 <= i < |names| => if names[i] in r then r[names[i]] else names[i])
  }

  function MapDir(r: map<nat, nat>, p: DirState): DirState {
    p.(loc := MapLoc(r, p.loc), names := MapNames(r, p.names))
  }

  lemma MovedIndexed(r: map<nat, nat>, s: Sys, live: set<nat>, u: Sys, t: nat, loc: Loc, tr: Tree, ht: nat)
    requires Moved(r, s, live, u) && Indexed(s.disk, t, loc, tr, ht) && Foot(loc) <= live
    ensures Indexed(u.disk, t, MapLoc(r, loc), tr, ht) && Foot(MapLoc(r, loc)) <= r.Values
  {
    hide Moved, Rep, Apart, Foot, Shape, Flat, Sorted, Injective, MapLoc;
    MovedInjective(r, s, live, u);
    MovedTree(r, s, live, u, t, loc, tr);
    MapApart(r, loc);
    MapFoot(r, loc);
  }

  lemma MovedRecs(r: map<nat, nat>, s: Sys, live: set<nat>, u: Sys, b: nat, rs: seq<Rec>)
    requires WellLinked(s, live) && Moved(r, s, live, u) && b in live && HoldsRecs(s.disk, b, rs)
    ensures b in r && r[b] != 0 && HoldsRecs(u.disk, r[b], rs)
    ensures s.disk[b].next == 0 ==> u.disk[r[b]].next == 0
    ensures s.disk[b].next != 0 ==> s.disk[b].next in r && u.disk[r[b]].next == r[s.disk[b].next]
  {
    hide WellLinked, Moved, Packed, Live;
    MovedAt(r, s, live, u, b);
  }

  lemma MovedRolled(r: map<nat, nat>, s: Sys, live: set<nat>, u: Sys, names: seq<nat>, recs: seq<seq<Rec>>)
    requires WellLinked(s, live) && Moved(r, s, live, u) && Rolled(s.disk, live, names, recs)
    ensures Rolled(u.disk, r.Values, MapNames(r, names), recs)
  {
    hide WellLinked, Moved, HoldsRecs;
    MovedInjective(r, s, live, u);
    var ms := MapNames(r, names);
    RolledAll(s.disk, live, names, recs);
    forall i | 0 <= i < |ms|
      ensures RollAt(u.disk, r.Values, ms, recs, i)
    {
      assert RollAt(s.disk, live, names, recs, i);
      MovedRecs(r, s, live, u, names[i], recs[i]);
    }
  }

  lemma RolledAll(d: Disk, live: set<nat>, names: seq<nat>, recs: seq<seq<Rec>>)
    requires Rolled(d, live, names, recs)
    ensures forall i | 0 <= i < |names| :: names[i] in live && names[i] != 0
  {
    hide HoldsRecs;
    forall i | 0 <= i < |names|
      ensures names[i] in live && names[i] != 0
    {
      assert RollAt(d, live, names, recs, i);
    }
  }

  lemma DirMoved(r: map<nat, nat>, s: Sys, live: set<nat>, u: Sys, t: nat, h: Hash, p: DirState)
    requires WellLinked(s, live) && Moved(r, s, live, u) && DirAt(s, live, t, h, p)
    ensures DirAt(u, r.Values, t, h, MapDir(r, p))
  {
    hide WellLinked, Moved, Renamed, Rolled, Matched, Indexed, Flat, Foot;
    OwnBlock(p.loc);
    RolledFirst(s.disk, live, p.names, p.recs);
    MovedInode(r, s, live, u, p.ino);
    MovedIndexed(r, s, live, u, t, p.loc, p.tr, p.ht);
    MovedRolled(r, s, live, u, p.names, p.recs);
    MovedAt(r, s, live, u, p.loc.bno);
    MovedRootName(r, s.disk[p.loc.bno], u.disk[r[p.loc.bno]]);
  }

  lemma RolledFirst(d: Disk, live: set<nat>, names: seq<nat>, recs: seq<seq<Rec>>)
    requires Rolled(d, live, names, recs)
    ensures |names| == |recs| >= 1 && names[0] in live && RollAt(d, live, names, recs, 0)
  {
    hide HoldsRecs;
    assert RollAt(d, live, names, recs, 0);
  }

  lemma MovedRootName(r: map<nat, nat>, x: Block, y: Block)
    requires Renamed(r, x, y) && x.TreeBlock? && x.node.root
    ensures y.TreeBlock? && y.node.root && x.node.treeName in r && y.node.treeName == r[x.node.treeName]
  {
  }

  // --------------------------------------------------- retelling around it

  lemma RetoldIndexed(s: Sys, u: Sys, g: set<nat>, t: nat, loc: Loc, tr: Tree, ht: nat)
    requires Retold(s, u, g) && Indexed(s.disk, t, loc, tr, ht) && Foot(loc) !! g
    ensures Indexed(u.disk, t, loc, tr, ht)
  {
    hide Rep, Apart, Foot, Shape, Flat, Sorted;
    RepFrame(s.disk, u.disk, t, loc, tr);
  }

  lemma DirRetold(s: Sys, u: Sys, live: set<nat>, g: set<nat>, t: nat, h: Hash, p: DirState)
    requires Retold(s, u, g) && DirAt(s, live, t, h, p) && DirBlocks(p) !! g
    ensures DirAt(u, live, t, h, p)
  {
    hide Indexed, Matched, Flat, Foot, HoldsRecs, Reworded;
    OwnBlock(p.loc);
    RetoldIndexed(s, u, g, t, p.loc, p.tr, p.ht);
    forall i | 0 <= i < |p.names|
      ensures RollAt(u.disk, live, p.names, p.recs, i)
    {
      assert RollAt(s.disk, live, p.names, p.recs, i) && p.names[i] in NameSet(p.names);
      SameRecs(s, u, g, p.names[i], p.recs[i]);
    }
  }

  lemma SameRecs(s: Sys, u: Sys, g: set<nat>, b: nat, rs: seq<Rec>)
    requires Retold(s, u, g) && HoldsRecs(s.disk, b, rs) && b !in g
    ensures HoldsRecs(u.disk, b, rs) && u.disk[b] == s.disk[b]
  {
    hide Parsed;
  }

  // --------------------------------------------------------- whole stretches

  /** A stretch of defragmentation leads from s to u: blocks of g are reworded, and all
      blocks are moved as r says. */
  ghost predicate Along(s: Sys, live: set<nat>, r: map<nat, nat>, u: Sys, g: set<nat>) {
    exists s' :: Retold(s, s', g) && Moved(r, s', live, u)
  }

  lemma AlongMoved(s: Sys, live: set<nat>, r: map<nat, nat>, u: Sys)
    requires Moved(r, s, live, u)
    ensures Along(s, live, r, u, {})
  {
    RetoldNone(s, {});
  }

  lemma AlongIs(s: Sys, s': Sys, live: set<nat>, r: map<nat, nat>, u: Sys, g: set<nat>)
    requires Retold(s, s', g) && Moved(r, s', live, u)
    ensures Along(s, live, r, u, g)
  {
  }

  lemma AlongMore(s: Sys, live: set<nat>, r: map<nat, nat>, u: Sys, g: set<nat>, f: set<nat>)
    requires Along(s, live, r, u, g) && g <= f
    ensures Along(s, live, r, u, f)
  {
    hide Retold, Moved;
    var s' :| Retold(s, s', g) && Moved(r, s', live, u);
    RetoldMore(s, s', g, f);
  }

  lemma AlongFacts(s: Sys, live: set<nat>, r: map<nat, nat>, u: Sys, g: set<nat>)
    requires WellLinked(s, live) && Along(s, live, r, u, g)
    ensures r.Keys == live && Injective(r) && WellLinked(u, r.Values)
  {
    hide Retold, Moved, WellLinked, Injective;
    var s' :| Retold(s, s', g) && Moved(r, s', live, u);
    RetoldLinked(s, live, s', g);
    MovedInjective(r, s', live, u);
    MovedLinked(r, s', live, u);
  }

  /** Two stretches are one. */
  lemma AlongTwice(s: Sys, live: set<nat>, r: map<nat, nat>, u: Sys, g: set<nat>, q: map<nat, nat>, w: Sys, f: set<nat>)
    requires WellLinked(s, live) && Along(s, live, r, u, g) && Along(u, r.Values, q, w, f)
    requires forall b | b in live && b in r && r[b] in f :: b in g
    ensures Along(s, live, Compose(r, q), w, g) && Compose(r, q).Values == q.Values
  {
    hide Retold, Moved, WellLinked, PullBack, Injective, Compose;
    var s1 :| Retold(s, s1, g) && Moved(r, s1, live, u);
    var u1 :| Retold(u, u1, f) && Moved(q, u1, r.Values, w);
    RetoldLinked(s, live, s1, g);
    MovedInjective(r, s1, live, u);
    MovedInjective(q, u1, r.Values, w);
    RetellFirst(r, s1, live, u, u1, g, f);
    var s2 := PullBack(r, s1, u1);
    RetoldTwice(s, s1, s2, g, g);
    assert g + g == g;
    MovedTwice(r, q, s2, live, u1, w);
    AlongIs(s, s2, live, Compose(r, q), w, g);
    ComposeKeys(r, q);
  }

  /** Retelling at the end of a stretch. */
  lemma AlongRetold(s: Sys, live: set<nat>, r: map<nat, nat>, u: Sys, g: set<nat>, w: Sys, f: set<nat>)
    requires WellLinked(s, live) && Along(s, live, r, u, g) && Retold(u, w, f)
    requires forall b | b in live && b in r && r[b] in f :: b in g
    ensures Along(s, live, r, w, g)
  {
    hide Retold, Moved, WellLinked, PullBack, Injective;
    var s1 :| Retold(s, s1, g) && Moved(r, s1, live, u);
    RetoldLinked(s, live, s1, g);
    MovedInjective(r, s1, live, u);
    RetellFirst(r, s1, live, u, w, g, f);
    var s2 := PullBack(r, s1, w);
    RetoldTwice(s, s1, s2, g, g);
    assert g + g == g;
    AlongIs(s, s2, live, r, w, g);
  }

  /** Blocks that a map fixes are reached from nowhere else. */
  lemma FixedOnly(r: map<nat, nat>, f: set<nat>)
    requires Injective(r) && f <= r.Keys && forall x | x in f :: r[x] == x
    ensures forall b | b in r && r[b] in f :: b in f
  {
  }

  /** A directory whose blocks are not reworded is the same directory afterwards. */
  lemma DirAlong(s: Sys, live: set<nat>, r: map<nat, nat>, u: Sys, g: set<nat>, t: nat, h: Hash, p: DirState)
    requires WellLinked(s, live) && Along(s, live, r, u, g) && DirAt(s, live, t, h, p) && DirBlocks(p) !! g
    ensures DirAt(u, r.Values, t, h, MapDir(r, p))
  {
    hide Retold, Moved, WellLinked, DirAt, DirBlocks;
    var s' :| Retold(s, s', g) && Moved(r, s', live, u);
    RetoldLinked(s, live, s', g);
    DirRetold(s, s', live, g, t, h, p);
    DirMoved(r, s', live, u, t, h, p);
  }

  /** File contents do not change on the way. */
  lemma FileAlong(s: Sys, live: set<nat>, r: map<nat, nat>, u: Sys, g: set<nat>, ino: nat, c: nat, k: nat)
    requires WellLinked(s, live) && Along(s, live, r, u, g)
    requires ino in s.iBno && IsTable(s.disk, s.iBno[ino]) && c < NrClusters(s.disk[s.iBno[ino]].clusters)
             && k < CLUSTER_LEN
    ensures FileBlock(s, ino, c, k).Some? && FileBlock(u, ino, c, k) == FileBlock(s, ino, c, k)
  {
    hide Retold, Moved, WellLinked, NrClusters;
    var s' :| Retold(s, s', g) && Moved(r, s', live, u);
    RetoldLinked(s, live, s', g);
    RetoldInodes(s, s', g);
    RetoldAt(s, s', g, s.iBno[ino]);
    RetoldAt(s, s', g, s.disk[s.iBno[ino]].clusters[c].start + k);
    InodesLive(s, live, ino);
    MovedFile(r, s', live, u, ino, c, k);
  }

  lemma InodesLive(s: Sys, live: set<nat>, ino: nat)
    requires WellLinked(s, live) && ino in s.iBno
    ensures s.iBno[ino] in live
  {
  }

  // ------------------------------------------------------------- what is kept

  lemma MatchedSame(h: Hash, es: seq<Entry>, fs: seq<Entry>, ls: seq<Rec>)
    requires Matched(h, es, ls) && SameFiles(es, fs)
    ensures Matched(h, fs, ls)
  {
    hide Distinguished, ItemOf;
    forall r | r in ls
      ensures Directory.IsIno(r.ino) && HasFile(fs, h(ItemOf(r).name), r.ino)
    {
      assert HasFile(es, h(ItemOf(r).name), r.ino);
      var i :| 0 <= i < |es| && es[i].hash == h(ItemOf(r).name) && es[i].ino == r.ino;
      assert SameFile(es[i], fs[i]);
    }
    forall e | e in fs
      ensures HasRecord(h, ls, e.hash)
    {
      var i :| 0 <= i < |fs| && fs[i] == e;
      assert es[i] in es && SameFile(es[i], fs[i]);
    }
  }

  lemma RewroteSame(a: seq<Entry>, b: seq<Entry>, xs: set<nat>)
    requires Rewrote(a, b, xs)
    ensures SameFiles(a, b)
  {
  }

  lemma SameFilesTwice(a: seq<Entry>, b: seq<Entry>, c: seq<Entry>)
    requires SameFiles(a, b) && SameFiles(b, c)
    ensures SameFiles(a, c)
  {
  }

  /** The blocks of a list hold records of different names. */
  lemma BlockMatched(h: Hash, es: seq<Entry>, recs: seq<seq<Rec>>, i: nat)
    requires i < |recs| && Matched(h, es, NameList.AllLive(recs))
    ensures Distinguished(h, Live(recs[i])) && AllHave(es, h, Live(recs[i]))
  {
    hide Live, ItemOf;
    NameList.LiveOfBlock(recs, i);
    var a, b, c := NameList.AllLive(recs[..i]), Live(recs[i]), NameList.AllLive(recs[i + 1..]);
    assert forall j | 0 <= j < |b| :: NameList.AllLive(recs)[|a| + j] == b[j];
    forall r | r in b
      ensures HasHash(es, h(ItemOf(r).name))
    {
      assert HasFile(es, h(ItemOf(r).name), r.ino);
    }
  }

  lemma HashesApart(h: Hash, es: seq<Entry>, recs: seq<seq<Rec>>, i: nat, j: nat)
    requires i < j < |recs| && Matched(h, es, NameList.AllLive(recs))
    ensures Hashes(h, Live(recs[i])) !! Hashes(h, Live(recs[j]))
  {
    hide Live, ItemOf, Distinguished, Hashes;
    NameList.LiveOfBlock(recs, j);
    NameList.LiveOfBlock(recs[..j], i);
    var a, b, c := NameList.AllLive(recs[..j][..i]), Live(recs[i]), NameList.AllLive(recs[..j][i + 1..]);
    assert recs[..j][i] == recs[i];
    PartsApart(h, NameList.AllLive(recs), a, b, c, Live(recs[j]), NameList.AllLive(recs[j + 1..]));
  }

  lemma PartsApart(h: Hash, all: seq<Rec>, a: seq<Rec>, b: seq<Rec>, c: seq<Rec>, d: seq<Rec>, e: seq<Rec>)
    requires Distinguished(h, all) && all == (a + b + c) + d + e
    ensures Hashes(h, b) !! Hashes(h, d)
  {
    hide ItemOf;
    forall r, q | r in b && q in d
      ensures h(ItemOf(r).name) != h(ItemOf(q).name)
    {
      var m :| 0 <= m < |b| && b[m] == r;
      var n :| 0 <= n < |d| && d[n] == q;
      assert all[|a| + m] == r && all[|a| + |b| + |c| + n] == q;
    }
  }
}
