/** Changes to what blocks say that leave the block graph alone: places in directory entries
    and records in name blocks. Such changes and moves can be exchanged. */
module Wording {
  import opened Entries
  import opened Blocks
  import opened System

  /** The same entry, perhaps with another place. */
  predicate SameFile(e: Entry, f: Entry) { f.ino == e.ino && f.hash == e.hash }

  ghost predicate SameFiles(a: seq<Entry>, b: seq<Entry>) {
    |a| == |b| && forall i | 0 <= i < |a| :: SameFile(a[i], b[i])
  }

  /** The same block, perhaps with other places or other name records. */
  ghost predicate Reworded(x: Block, y: Block) {
    match x
    case TreeBlock(m) => y.TreeBlock? && y.node == m.(entries := y.node.entries) && SameFiles(m.entries, y.node.entries)
    case NameBlock(first, prev, next, _) => y.NameBlock? && y.first == first && y.prev == prev && y.next == next
    case _ => y == x
  }

  /** Only blocks of f have changed, and only their wording. */
  ghost predicate Retold(s: Sys, u: Sys, f: set<nat>) {
    && u.iBno == s.iBno && u.info == s.info && u.disk.Keys == s.disk.Keys
    && forall b | b in s.disk :: if b in f then Reworded(s.disk[b], u.disk[b]) else u.disk[b] == s.disk[b]
  }

  lemma RewordedSelf(x: Block)
    ensures Reworded(x, x)
  {
  }

  lemma RetoldNone(s: Sys, f: set<nat>)
    ensures Retold(s, s, f)
  {
  }

  lemma RewordedTwice(x: Block, y: Block, z: Block)
    requires Reworded(x, y) && Reworded(y, z)
    ensures Reworded(x, z)
  {
  }

  lemma RetoldTwice(s: Sys, u: Sys, w: Sys, f: set<nat>, g: set<nat>)
    requires Retold(s, u, f) && Retold(u, w, g)
    ensures Retold(s, w, f + g)
  {
    hide Reworded;
    forall b | b in s.disk
      ensures if b in f + g then Reworded(s.disk[b], w.disk[b]) else w.disk[b] == s.disk[b]
    {
      RewordedSelf(s.disk[b]);
      RewordedSelf(u.disk[b]);
      if b in f + g { RewordedTwice(s.disk[b], u.disk[b], w.disk[b]); }
    }
  }

  lemma RetoldMore(s: Sys, u: Sys, f: set<nat>, g: set<nat>)
    requires Retold(s, u, f) && f <= g
    ensures Retold(s, u, g)
  {
    hide Reworded;
    forall b | b in s.disk
      ensures Reworded(s.disk[b], s.disk[b])
    {
      RewordedSelf(s.disk[b]);
    }
  }

  lemma RetoldKind(s: Sys, u: Sys, f: set<nat>, b: nat)
    requires Retold(s, u, f)
    ensures b in s.disk <==> b in u.disk
    ensures b in s.disk ==> Reworded(s.disk[b], u.disk[b]) && (u.disk[b].DataBlock? <==> s.disk[b].DataBlock?)
    ensures b in s.disk && (s.disk[b].TableBlock? || s.disk[b].DataBlock? || b !in f) ==> u.disk[b] == s.disk[b]
  {
    if b in s.disk { RewordedSelf(s.disk[b]); }
  }

  /** The graph is linked as before. */
  lemma RetoldLinked(s: Sys, live: set<nat>, u: Sys, f: set<nat>)
    requires WellLinked(s, live) && Retold(s, u, f)
    ensures WellLinked(u, live)
  {
    hide Retold, BlockOk, Owns, Reworded;
    RetoldInodes(s, u, f);
    forall b | b in live
      ensures BlockOk(u, live, b)
    {
      RetoldBlockOk(s, live, u, f, b);
    }
    forall i | i in u.iBno
      ensures u.iBno[i] in live && Owns(u.disk, i, u.iBno[i])
    {
      RetoldOwns(s, u, f, i, u.iBno[i]);
    }
  }

  lemma RetoldInodes(s: Sys, u: Sys, f: set<nat>)
    requires Retold(s, u, f)
    ensures u.iBno == s.iBno && u.info == s.info
  {
  }

  lemma RetoldOwns(s: Sys, u: Sys, f: set<nat>, i: nat, b: nat)
    requires Retold(s, u, f) && Owns(s.disk, i, b)
    ensures Owns(u.disk, i, b)
  {
    RetoldKind(s, u, f, b);
  }

  lemma RetoldBlockOk(s: Sys, live: set<nat>, u: Sys, f: set<nat>, b: nat)
    requires WellLinked(s, live) && Retold(s, u, f) && b in live
    ensures BlockOk(u, live, b)
  {
    hide WellLinked, Retold, Reworded, TreeOk, NameOk, TableOk, DataOk;
    LiveBlockOk(s, live, b);
    RetoldKind(s, u, f, b);
    RewordedKinds(s.disk[b], u.disk[b]);
    match s.disk[b]
    case TreeBlock(n) => RetoldTreeOk(s, live, u, f, b);
    case NameBlock(_, _, _, _) => RetoldNameOk(s, live, u, f, b);
    case TableBlock(_, _) => RetoldTableOk(s, live, u, f, b);
    case DataBlock(_) => RetoldDataOk(s, live, u, f, b);
  }

  lemma LiveBlockOk(s: Sys, live: set<nat>, b: nat)
    requires WellLinked(s, live) && b in live
    ensures BlockOk(s, live, b)
  {
  }

  lemma RewordedKinds(x: Block, y: Block)
    requires Reworded(x, y)
    ensures (x.TreeBlock? <==> y.TreeBlock?) && (x.NameBlock? <==> y.NameBlock?)
    ensures (x.TableBlock? <==> y.TableBlock?) && (x.DataBlock? <==> y.DataBlock?)
    ensures x.TreeBlock? ==> y.node == x.node.(entries := y.node.entries) && Kids(y.node) == Kids(x.node)
    ensures x.NameBlock? ==> y.first == x.first && y.prev == x.prev && y.next == x.next
    ensures x.TableBlock? || x.DataBlock? ==> y == x
  {
  }

  /** What every block keeps, at one block. */
  lemma RetoldAt(s: Sys, u: Sys, f: set<nat>, b: nat)
    requires Retold(s, u, f)
    ensures b in s.disk <==> b in u.disk
    ensures (IsTree(s.disk, b) <==> IsTree(u.disk, b)) && (IsName(s.disk, b) <==> IsName(u.disk, b))
    ensures (IsTable(s.disk, b) <==> IsTable(u.disk, b)) && (IsData(s.disk, b) <==> IsData(u.disk, b))
    ensures IsTree(s.disk, b) ==>
              && u.disk[b].node == s.disk[b].node.(entries := u.disk[b].node.entries)
              && Kids(u.disk[b].node) == Kids(s.disk[b].node)
    ensures IsName(s.disk, b) ==>
              u.disk[b].first == s.disk[b].first && u.disk[b].prev == s.disk[b].prev && u.disk[b].next == s.disk[b].next
    ensures IsTable(s.disk, b) || IsData(s.disk, b) ==> u.disk[b] == s.disk[b]
  {
    hide Retold, Reworded, Kids;
    RetoldKind(s, u, f, b);
    if b in s.disk { RewordedKinds(s.disk[b], u.disk[b]); }
  }

  lemma RetoldTreeOk(s: Sys, live: set<nat>, u: Sys, f: set<nat>, b: nat)
    requires Retold(s, u, f) && IsTree(s.disk, b) && TreeOk(s, live, b, s.disk[b].node)
    ensures IsTree(u.disk, b) && TreeOk(u, live, b, u.disk[b].node)
  {
    hide Retold, Kids;
    var m := s.disk[b].node;
    RetoldInodes(s, u, f);
    RetoldAt(s, u, f, b);
    RetoldAt(s, u, f, m.treeName);
    RetoldAt(s, u, f, m.parent);
    forall c | c in Kids(m)
      ensures c in live && IsTree(u.disk, c) && !u.disk[c].node.root && u.disk[c].node.parent == b
    {
      RetoldAt(s, u, f, c);
    }
  }

  lemma RetoldNameOk(s: Sys, live: set<nat>, u: Sys, f: set<nat>, b: nat)
    requires Retold(s, u, f) && IsName(s.disk, b) && NameOk(s, live, b, s.disk[b].first, s.disk[b].prev, s.disk[b].next)
    ensures IsName(u.disk, b) && NameOk(u, live, b, u.disk[b].first, u.disk[b].prev, u.disk[b].next)
  {
    hide Retold, Kids;
    var x := s.disk[b];
    RetoldInodes(s, u, f);
    RetoldAt(s, u, f, b);
    RetoldAt(s, u, f, x.prev);
    RetoldAt(s, u, f, x.next);
    if x.first { RetoldAt(s, u, f, s.iBno[x.prev]); }
  }

  lemma RetoldTableOk(s: Sys, live: set<nat>, u: Sys, f: set<nat>, b: nat)
    requires Retold(s, u, f) && IsTable(s.disk, b) && TableOk(s, live, b, s.disk[b].ino, s.disk[b].clusters)
    ensures IsTable(u.disk, b) && TableOk(u, live, b, u.disk[b].ino, u.disk[b].clusters)
  {
    hide Retold, NrClusters;
    var ino, cs := s.disk[b].ino, s.disk[b].clusters;
    RetoldInodes(s, u, f);
    RetoldAt(s, u, f, b);
    forall c, k | 0 <= c < NrClusters(cs) && 0 <= k < CLUSTER_LEN
      ensures RunOk(u, live, ino, cs, c, k)
    {
      assert RunOk(s, live, ino, cs, c, k);
      RetoldAt(s, u, f, cs[c].start + k);
    }
  }

  lemma RetoldDataOk(s: Sys, live: set<nat>, u: Sys, f: set<nat>, b: nat)
    requires Retold(s, u, f) && IsData(s.disk, b) && DataOk(s, live, b)
    ensures IsData(u.disk, b) && DataOk(u, live, b)
  {
    hide Retold, NrClusters;
    RetoldInodes(s, u, f);
    RetoldAt(s, u, f, b);
    RetoldAt(s, u, f, s.iBno[s.info[b].ino]);
  }

  // ------------------------------------------------------- retelling and moving

  /** Block x with the words of y. */
  function WithWords(x: Block, y: Block): Block {
    match x
    case TreeBlock(m) => if y.TreeBlock? then TreeBlock(m.(entries := y.node.entries)) else x
    case NameBlock(first, prev, next, _) => if y.NameBlock? then NameBlock(first, prev, next, y.payload) else x
    case _ => x
  }

  /** State s with the words that w has where r has moved the blocks to. */
  function PullBack(r: map<nat, nat>, s: Sys, w: Sys): Sys {
    s.(disk := map b | b in s.disk ::
         if b in r && r[b] in w.disk then WithWords(s.disk[b], w.disk[r[b]]) else s.disk[b])
  }

  lemma PullBackAt(r: map<nat, nat>, s: Sys, w: Sys, b: nat)
    requires b in s.disk
    ensures b in PullBack(r, s, w).disk
    ensures PullBack(r, s, w).disk[b]
              == if b in r && r[b] in w.disk then WithWords(s.disk[b], w.disk[r[b]]) else s.disk[b]
  {
  }

  /** Moving and then retelling is retelling and then moving. */
  lemma RetellFirst(r: map<nat, nat>, s: Sys, live: set<nat>, u: Sys, w: Sys, f: set<nat>, g: set<nat>)
    requires WellLinked(s, live) && Moved(r, s, live, u) && Retold(u, w, g)
    requires forall b | b in live && r[b] in g :: b in f
    ensures var s' := PullBack(r, s, w); Retold(s, s', f) && Moved(r, s', live, w) && WellLinked(s', live)
  {
    hide WellLinked, Renamed, Retold, Reworded, Injective, WithWords, PullBack;
    var s' := PullBack(r, s, w);
    RetoldInodes(u, w, g);
    forall b | b in s.disk
      ensures b in s'.disk && if b in f then Reworded(s.disk[b], s'.disk[b]) else s'.disk[b] == s.disk[b]
    {
      PullBackAt(r, s, w, b);
      RewordedSelf(s.disk[b]);
      if b in r {
        MovedAt(r, s, live, u, b);
        RetoldKind(u, w, g, r[b]);
        WordsBack(r, s.disk[b], u.disk[r[b]], w.disk[r[b]]);
      }
    }
    PullBackRest(r, s, w);
    RetoldIs(s, s', f);
    RetoldLinked(s, live, s', f);
    forall b | b in live && b in s'.disk
      ensures r[b] in w.disk && Renamed(r, s'.disk[b], w.disk[r[b]])
    {
      PullBackAt(r, s, w, b);
      RetoldKind(u, w, g, r[b]);
      WordsBack(r, s.disk[b], u.disk[r[b]], w.disk[r[b]]);
    }
    forall b | b in live && IsData(s'.disk, b) && b in s'.info
      ensures r[b] in w.info && w.info[r[b]] == s'.info[b]
    {
      RetoldAt(s, s', f, b);
    }
  }

  lemma PullBackRest(r: map<nat, nat>, s: Sys, w: Sys)
    ensures PullBack(r, s, w).iBno == s.iBno && PullBack(r, s, w).info == s.info
            && PullBack(r, s, w).disk.Keys == s.disk.Keys
  {
  }

  lemma RetoldIs(s: Sys, u: Sys, f: set<nat>)
    requires u.iBno == s.iBno && u.info == s.info && u.disk.Keys == s.disk.Keys
    requires forall b | b in s.disk :: if b in f then Reworded(s.disk[b], u.disk[b]) else u.disk[b] == s.disk[b]
    ensures Retold(s, u, f)
  {
  }

  /** The words of a renamed and reworded block fit the original. */
  lemma WordsBack(r: map<nat, nat>, x: Block, y: Block, z: Block)
    requires Renamed(r, x, y) && Reworded(y, z)
    ensures Renamed(r, WithWords(x, z), z) && Reworded(x, WithWords(x, z))
    ensures z == y ==> WithWords(x, z) == x
  {
    match x
    case TreeBlock(m) =>
      RewordedKinds(y, z);
      SameSlots(m, z.node.entries);
    case NameBlock(_, _, _, _) =>
    case TableBlock(_, _) =>
    case DataBlock(_) =>
  }

  lemma SameSlots(m: BNode, es: seq<Entry>)
    ensures Kids(m.(entries := es)) == Kids(m)
  {
  }
}
