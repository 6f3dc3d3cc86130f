/** basicbtfs_defrag_nametree_block and basicbtfs_defrag_nametree: the blocks of a directory's
    name list are squeezed, filled from each other, put on consecutive blocks, and the tree
    learns where every record lies. */
module DefragNames {
  import opened Entries
  import opened BTree
  import opened Blocks
  import opened Bitmap
  import opened System
  import opened DiskTree
  import opened Relocate
  import opened Defrag
  import opened DefragNode
  import opened DefragTree
  import opened DefragName
  import opened NameRecords
  import opened NameBlocks
  import opened NameCompact
  import opened Wording
  import opened NamePhases
  import opened NamePull
  import opened NameFill
  import opened DefragDirs
  import NameList

  // ---------------------------------------------------------- what phases keep

  /** The state between phases: a steady volume on which the directory lies. */
  ghost predicate Tidy(v: Volume, h: Hash, p: DirState, live: set<nat>, base: nat)
    reads v, v.alloc, v.alloc.bits
  {
    Steady(v, live, base) && DirAt(Snap(v), live, v.t, h, p)
  }

  /** Retelling keeps the volume steady. */
  lemma SteadyRetold(s: Sys, u: Sys, live: set<nat>, g: set<nat>)
    requires WellLinked(s, live) && HonestAll(s.disk, live) && Retold(s, u, g)
    ensures WellLinked(u, live) && HonestAll(u.disk, live)
  {
    hide WellLinked, Retold;
    RetoldLinked(s, live, u, g);
    forall b | b in live && b in u.disk
      ensures Honest(u.disk[b])
    {
      RetoldKind(s, u, g, b);
    }
  }

  lemma StraddleRetold(s: Sys, u: Sys, live: set<nat>, g: set<nat>, off: nat)
    requires NoStraddle(s, live, off) && Retold(s, u, g)
    ensures NoStraddle(u, live, off)
  {
    hide Retold, StartOf;
    forall y | y in live && IsData(u.disk, y) && off <= y
      ensures off <= StartOf(u, y)
    {
      RetoldAt(s, u, g, y);
      StartRetold(s, u, g, y);
    }
  }

  lemma StartRetold(s: Sys, u: Sys, g: set<nat>, y: nat)
    requires Retold(s, u, g)
    ensures StartOf(u, y) == StartOf(s, y)
  {
    hide Retold;
    RetoldInodes(s, u, g);
    if y in s.info && s.info[y].ino in s.iBno { RetoldAt(s, u, g, s.iBno[s.info[y].ino]); }
  }

  /** Rewriting records so that the live ones stay the same. */
  lemma AllLiveOne(recs: seq<seq<Rec>>, i: nat, rs: seq<Rec>)
    requires i < |recs| && Live(rs) == Live(recs[i])
    ensures NameList.AllLive(recs[i := rs]) == NameList.AllLive(recs)
  {
    hide Live;
    NameList.LiveOfBlock(recs, i);
    NameList.LiveOfBlock(recs[i := rs], i);
    assert recs[i := rs][..i] == recs[..i] && recs[i := rs][i + 1..] == recs[i + 1..];
  }

  lemma AllLiveTwo(recs: seq<seq<Rec>>, i: nat, a: seq<Rec>, b: seq<Rec>)
    requires i + 1 < |recs| && Live(a) + Live(b) == Live(recs[i]) + Live(recs[i + 1])
    ensures NameList.AllLive(recs[i := a][i + 1 := b]) == NameList.AllLive(recs)
  {
    hide Live, NameList.AllLive;
    var qs := recs[i := a][i + 1 := b];
    NameList.LiveOfBlock(recs, i);
    NameList.LiveOfBlock(qs, i);
    assert qs[..i] == recs[..i] && qs[i + 1..] == [b] + recs[i + 2..] && recs[i + 1..] == [recs[i + 1]] + recs[i + 2..];
    LiveConsBlock(b, recs[i + 2..]);
    LiveConsBlock(recs[i + 1], recs[i + 2..]);
    var front, back := NameList.AllLive(recs[..i]), NameList.AllLive(recs[i + 2..]);
    GroupMiddle(front, Live(a), Live(b), back);
    GroupMiddle(front, Live(recs[i]), Live(recs[i + 1]), back);
  }

  lemma GroupMiddle(a: seq<Rec>, b: seq<Rec>, c: seq<Rec>, d: seq<Rec>)
    ensures a + b + (c + d) == a + (b + c) + d
  {
  }

  lemma LiveConsBlock(b: seq<Rec>, rest: seq<seq<Rec>>)
    ensures NameList.AllLive([b] + rest) == Live(b) + NameList.AllLive(rest)
  {
    assert ([b] + rest)[1..] == rest;
  }

  /** The directory after a phase has rewritten its tree and the records of some blocks. */
  lemma DirRewritten(s: Sys, u: Sys, live: set<nat>, t: nat, h: Hash, p: DirState, p': DirState, g: set<nat>)
    requires WellLinked(s, live) && DirAt(s, live, t, h, p) && Retold(s, u, g)
    requires p' == p.(tr := p'.tr, recs := p'.recs) && |p'.recs| == |p.recs|
    requires Indexed(u.disk, t, p.loc, p'.tr, p.ht) && SameFiles(Flat(p.tr), Flat(p'.tr))
    requires NameList.AllLive(p'.recs) == NameList.AllLive(p.recs)
    requires forall i | 0 <= i < |p.names| :: HoldsRecs(u.disk, p.names[i], p'.recs[i])
    ensures DirAt(u, live, t, h, p')
  {
    hide WellLinked, Indexed, Matched, Flat, Foot, HoldsRecs, Retold, SameFiles;
    RetoldInodes(s, u, g);
    RetoldAt(s, u, g, p.loc.bno);
    forall i | 0 <= i < |p.names|
      ensures RollAt(u.disk, live, p.names, p'.recs, i)
    {
      assert RollAt(s.disk, live, p.names, p.recs, i);
      HoldsName(s.disk, p.names[i], p.recs[i]);
      RetoldAt(s, u, g, p.names[i]);
    }
    MatchedSame(h, Flat(p.tr), Flat(p'.tr), NameList.AllLive(p.recs));
  }

  lemma HoldsName(d: Disk, b: nat, rs: seq<Rec>)
    requires HoldsRecs(d, b, rs)
    ensures IsName(d, b) && IsNames(d, b)
  {
  }

  /** Other name blocks of the list are not part of the change. */
  lemma OtherBlocks(s: Sys, u: Sys, live: set<nat>, t: nat, h: Hash, p: DirState, g: set<nat>, i: nat)
    requires DirAt(s, live, t, h, p) && Retold(s, u, g) && i < |p.names| && p.names[i] !in g
    ensures HoldsRecs(u.disk, p.names[i], p.recs[i])
  {
    hide Indexed, Matched, Flat, Foot, HoldsRecs, Retold;
    assert RollAt(s.disk, live, p.names, p.recs, i);
    SameRecs(s, u, g, p.names[i], p.recs[i]);
  }

  lemma NameNotInTree(s: Sys, live: set<nat>, t: nat, h: Hash, p: DirState, i: nat)
    requires DirAt(s, live, t, h, p) && i < |p.names|
    ensures p.names[i] !in Foot(p.loc) && HoldsRecs(s.disk, p.names[i], p.recs[i]) && p.names[i] in NameSet(p.names)
    ensures s.disk[p.names[i]].next == NameList.NextOf(p.names, i) && p.names[i] in live && p.names[i] != 0
    ensures Foot(p.loc) <= live && |p.recs| == |p.names| && NameList.NoRepeats(p.names)
            && Matched(h, Flat(p.tr), NameList.AllLive(p.recs))
  {
    hide Matched, Flat, Foot, HoldsRecs, Rep, Apart, Shape, Sorted;
    assert RollAt(s.disk, live, p.names, p.recs, i);
    HoldsName(s.disk, p.names[i], p.recs[i]);
    if p.names[i] in Foot(p.loc) { FootTree(s.disk, t, p.loc, p.tr, p.names[i]); }
  }

  // ---------------------------------------------------------------- phases

  /** First phase. */
  method SqueezeStep(v: Volume, ino: nat, bno: nat, h: Hash, ghost p: DirState, ghost i: nat, ghost live: set<nat>,
                     ghost base: nat)
    returns (ok: bool, ghost p': DirState)
    requires Tidy(v, h, p, live, base) && i < |p.names| && bno == p.names[i] && ino == p.ino
    modifies v`blocks
    ensures ok && Tidy(v, h, p', live, base) && Retold(old(Snap(v)), Snap(v), DirBlocks(p))
    ensures p' == p.(tr := p'.tr, recs := p.recs[i := Squeeze(p.recs[i])])
            && Rewrote(Flat(p.tr), Flat(p'.tr), Hashes(h, Live(p.recs[i])))
    ensures NameList.AllLive(p'.recs) == NameList.AllLive(p.recs)
  {
    hide WellLinked, HonestAll, Placed, Indexed, Matched, Flat, Foot, HoldsRecs, Retold, Live, Squeeze, Rewrote,
         Rolled, Hashes, SetBits, AllHave;
    ghost var s := Snap(v);
    NameNotInTree(s, live, v.t, h, p, i);
    BlockMatched(h, Flat(p.tr), p.recs, i);
    ghost var tr';
    ok, tr' := SqueezeBlock(v, v.iBno[ino], bno, h, p.loc, p.tr, p.ht, p.recs[i]);
    p' := p.(tr := tr', recs := p.recs[i := Squeeze(p.recs[i])]);
    SqueezeLive(p.recs[i]);
    AllLiveOne(p.recs, i, Squeeze(p.recs[i]));
    RewroteSame(Flat(p.tr), Flat(tr'), Hashes(h, Live(p.recs[i])));
    forall j | 0 <= j < |p.names|
      ensures HoldsRecs(v.blocks, p.names[j], p'.recs[j])
    {
      if j != i {
        NameNotInTree(s, live, v.t, h, p, j);
        OtherName(p.names, i, j);
        OtherBlocks(s, Snap(v), live, v.t, h, p, Foot(p.loc) + {bno}, j);
      }
    }
    DirRewritten(s, Snap(v), live, v.t, h, p, p', Foot(p.loc) + {bno});
    SteadyRetold(s, Snap(v), live, Foot(p.loc) + {bno});
    RetoldMore(s, Snap(v), Foot(p.loc) + {bno}, DirBlocks(p));
  }

  lemma OtherName(names: seq<nat>, i: nat, j: nat)
    requires i < |names| && j < |names| && i != j
    ensures NameList.NoRepeats(names) ==> names[i] != names[j]
  {
  }

  /** Second phase. */
  method PullStep(v: Volume, ino: nat, bno: nat, next: nat, h: Hash, ghost p: DirState, ghost i: nat,
                  ghost live: set<nat>, ghost base: nat)
    returns (ghost p': DirState)
    requires Tidy(v, h, p, live, base) && i + 1 < |p.names| && bno == p.names[i] && next == p.names[i + 1]
             && ino == p.ino
    modifies v`blocks
    ensures Tidy(v, h, p', live, base) && Retold(old(Snap(v)), Snap(v), DirBlocks(p))
    ensures |p.recs| == |p.names|
    ensures var q := PullFrom(p.recs[i], p.recs[i + 1], 0);
            p' == p.(tr := p'.tr, recs := p.recs[i := q.0][i + 1 := q.1])
    ensures Rewrote(Flat(p.tr), Flat(p'.tr), Hashes(h, Live(p.recs[i + 1])))
    ensures NameList.AllLive(p'.recs) == NameList.AllLive(p.recs)
  {
    hide WellLinked, HonestAll, Placed, Indexed, Matched, Flat, Foot, HoldsRecs, Retold, Live, PullFrom, Rewrote,
         Rolled, Hashes, SetBits, AllHave;
    ghost var s, g := Snap(v), Foot(p.loc) + {bno, next};
    NameNotInTree(s, live, v.t, h, p, i);
    NameNotInTree(s, live, v.t, h, p, i + 1);
    OtherName(p.names, i, i + 1);
    ghost var tr';
    tr' := PullNext(v, v.iBno[ino], bno, next, h, p.loc, p.tr, p.ht, p.recs[i], p.recs[i + 1]);
    ghost var q := PullFrom(p.recs[i], p.recs[i + 1], 0);
    p' := p.(tr := tr', recs := p.recs[i := q.0][i + 1 := q.1]);
    NoneBehind(p.recs[i + 1]);
    PullLive(p.recs[i], p.recs[i + 1], 0);
    AllLiveTwo(p.recs, i, q.0, q.1);
    RewroteSame(Flat(p.tr), Flat(tr'), Hashes(h, Live(p.recs[i + 1])));
    forall j | 0 <= j < |p.names|
      ensures HoldsRecs(v.blocks, p.names[j], p'.recs[j])
    {
      if j != i && j != i + 1 {
        NameNotInTree(s, live, v.t, h, p, j);
        OtherName(p.names, i, j);
        OtherName(p.names, i + 1, j);
        OtherBlocks(s, Snap(v), live, v.t, h, p, g, j);
      }
    }
    DirRewritten(s, Snap(v), live, v.t, h, p, p', g);
    SteadyRetold(s, Snap(v), live, g);
    RetoldMore(s, Snap(v), g, DirBlocks(p));
  }

  lemma NoneBehind(rs: seq<Rec>)
    ensures Live(rs[..0]) == []
  {
    assert rs[..0] == [];
  }

  /** Third phase. */
  method ReindexStep(v: Volume, ino: nat, bno: nat, h: Hash, ghost p: DirState, ghost i: nat, ghost live: set<nat>,
                     ghost base: nat)
    returns (ghost p': DirState)
    requires Tidy(v, h, p, live, base) && i < |p.names| && bno == p.names[i] && ino == p.ino
    modifies v`blocks
    ensures Tidy(v, h, p', live, base) && Retold(old(Snap(v)), Snap(v), Foot(p.loc))
    ensures |p.recs| == |p.names| && p' == p.(tr := p'.tr)
            && Rewrote(Flat(p.tr), Flat(p'.tr), Hashes(h, Live(p.recs[i])))
    ensures ToldUpto(Flat(p'.tr), h, bno, p.recs[i], |p.recs[i]|)
  {
    hide WellLinked, HonestAll, Placed, Indexed, Matched, Flat, Foot, HoldsRecs, Retold, Live, Rewrote, Rolled, Hashes,
         SetBits, AllHave, ToldUpto;
    ghost var s := Snap(v);
    NameNotInTree(s, live, v.t, h, p, i);
    BlockMatched(h, Flat(p.tr), p.recs, i);
    ghost var tr';
    tr' := Reindex(v, v.iBno[ino], bno, h, p.loc, p.tr, p.ht, p.recs[i]);
    p' := p.(tr := tr');
    RewroteSame(Flat(p.tr), Flat(tr'), Hashes(h, Live(p.recs[i])));
    forall j | 0 <= j < |p.names|
      ensures HoldsRecs(v.blocks, p.names[j], p'.recs[j])
    {
      NameNotInTree(s, live, v.t, h, p, j);
      OtherBlocks(s, Snap(v), live, v.t, h, p, Foot(p.loc), j);
    }
    DirRewritten(s, Snap(v), live, v.t, h, p, p', Foot(p.loc));
    SteadyRetold(s, Snap(v), live, Foot(p.loc));
  }

  // -------------------------------------------------------------- placement

  /** The first i blocks of the list lie one behind the other from off0 on, the others
      further on. */
  ghost predicate InOrder(names: seq<nat>, i: nat, off0: nat) {
    && (forall j | 0 <= j < i && j < |names| :: names[j] == off0 + j)
    && (forall j | i <= j < |names| :: off0 + i <= names[j])
  }

  /** No block of the list is asked to go where its successor still lies. */
  ghost predicate NamesClear(names: seq<nat>, i: nat, off0: nat) {
    forall j | i < j < |names| :: names[j] != off0 + (j - 1)
  }

  /** What lies at the wanted place is adjacent to the block that goes there exactly if it is the
      block's successor. */
  lemma NextDoorExact(s: Sys, live: set<nat>, t: nat, h: Hash, p: DirState, i: nat, off0: nat)
    requires WellLinked(s, live) && DirAt(s, live, t, h, p) && AllBelow(Foot(p.loc), off0) && 0 < off0
    requires i < |p.names| && forall j | 0 <= j < i :: p.names[j] == off0 + j
    ensures IsName(s.disk, p.names[i])
    ensures Adjacent(s, p.names[i], off0 + i) <==> i + 1 < |p.names| && p.names[i + 1] == off0 + i
  {
    hide WellLinked, Indexed, Matched, Flat, Foot, HoldsRecs, Rolled;
    NameNotInTree(s, live, t, h, p, i);
    HoldsName(s.disk, p.names[i], p.recs[i]);
    OwnBlock(p.loc);
    if i == 0 {
      LiveBlock(s, live, p.loc.bno);
    } else {
      NameNotInTree(s, live, t, h, p, i - 1);
      HoldsName(s.disk, p.names[i - 1], p.recs[i - 1]);
      LiveBlock(s, live, p.names[i - 1]);
    }
  }

  /** A map that only touches blocks from off on leaves a tree below it. */
  lemma TreeStays(r: map<nat, nat>, live: set<nat>, a: nat, off: nat, mark: nat, loc: Loc)
    requires StepMap(r, live, a, off, mark) && AllBelow(Foot(loc), off) && off <= a && Foot(loc) <= live
    ensures MapLoc(r, loc) == loc && forall x | x in Foot(loc) :: r[x] == x
  {
    hide Foot;
    MapFixed(r, loc);
  }

  lemma OrderNext(r: map<nat, nat>, live: set<nat>, names: seq<nat>, i: nat, off0: nat, mark: nat)
    requires i < |names| && StepMap(r, live, names[i], off0 + i, mark) && Injective(r) && off0 + |names| <= mark
    requires (forall j | 0 <= j < |names| :: names[j] in live) && NameList.NoRepeats(names)
    requires InOrder(names, i, off0) && NamesClear(names, i, off0)
    ensures InOrder(MapNames(r, names), i + 1, off0) && NamesClear(MapNames(r, names), i + 1, off0)
    ensures forall j | 0 <= j < i :: MapNames(r, names)[j] == names[j]
  {
    var ms := MapNames(r, names);
    forall j | i < j < |names|
      ensures off0 + i + 1 <= ms[j]
    {
      assert names[i] != names[j];
      assert r[names[j]] != r[names[i]];
    }
  }

  /** Fourth phase: the block goes to the wanted place. */
  method PlaceStep(v: Volume, bno: nat, off: nat, h: Hash, ghost p: DirState, ghost i: nat, ghost off0: nat,
                   ghost live: set<nat>, ghost base: nat)
    returns (ghost p': DirState, ghost r: map<nat, nat>)
    requires Tidy(v, h, p, live, base) && i < |p.names| && bno == p.names[i] && off == off0 + i && 0 < base <= off0
    requires AllBelow(Foot(p.loc), off0) && InOrder(p.names, i, off0) && NamesClear(p.names, i, off0)
             && NoStraddle(Snap(v), live, off)
    requires v.alloc.unused + 1 + CLUSTER_LEN <= v.alloc.bits.Length
    modifies v`blocks, v`iBno, v`info, v.alloc, v.alloc.bits
    ensures Tidy(v, h, p', r.Values, base) && p' == p.(names := MapNames(r, p.names)) && p'.names[i] == off
    ensures Moved(r, old(Snap(v)), live, Snap(v)) && StepMap(r, live, bno, off, old(v.alloc.unused))
    ensures NoStraddle(Snap(v), r.Values, off + 1)
    ensures old(v.alloc.unused) <= v.alloc.unused <= old(v.alloc.unused) + 1 + CLUSTER_LEN
    ensures i + 1 < |p.names| ==> p'.names[i + 1] == p.names[i + 1]
  {
    hide WellLinked, HonestAll, Placed, Indexed, Matched, Flat, Foot, HoldsRecs, Rolled, SetBits, Moved, Adjacent,
         NoStraddle, FirstOfCluster;
    ghost var s, mark := Snap(v), v.alloc.unused;
    NameNotInTree(s, live, v.t, h, p, i);
    HoldsName(s.disk, p.names[i], p.recs[i]);
    NextDoorExact(s, live, v.t, h, p, i, off0);
    UsedBlock(v.alloc.Used(), mark, v.alloc.bits.Length, live, base, bno);
    if off in live && IsData(v.blocks, off) {
      StartIsFirst(s, live, off);
    }
    r := PlaceName(v, bno, off, live, base);
    StraddleStep(r, s, live, Snap(v), bno, off, mark);
    DirMoved(r, s, live, Snap(v), v.t, h, p);
    BelowHigher(Foot(p.loc), off0, off);
    TreeStays(r, live, bno, off, mark, p.loc);
    p' := p.(names := MapNames(r, p.names));
    if i + 1 < |p.names| {
      NameNotInTree(s, live, v.t, h, p, i + 1);
      HoldsName(s.disk, p.names[i + 1], p.recs[i + 1]);
      OtherName(p.names, i, i + 1);
    }
  }

  lemma BelowHigher(s: set<nat>, a: nat, b: nat)
    requires AllBelow(s, a) && a <= b
    ensures AllBelow(s, b)
  {
  }

  // ------------------------------------------------------------- one block

  /** The first i blocks of the list are done. */
  ghost predicate Listing(v: Volume, h: Hash, p: DirState, i: nat, off0: nat, live: set<nat>, base: nat)
    reads v, v.alloc, v.alloc.bits
  {
    && Tidy(v, h, p, live, base) && 0 < base <= off0 && i <= |p.names| == |p.recs|
    && AllBelow(Foot(p.loc), off0) && NoStraddle(Snap(v), live, off0 + i)
    && InOrder(p.names, i, off0) && NamesClear(p.names, i, off0)
    && AllTold(h, p, i)
  }

  /** Every live record of the first i blocks is where its entry says. */
  ghost predicate AllTold(h: Hash, p: DirState, i: nat) {
    && |p.names| == |p.recs|
    && forall j | 0 <= j < i && j < |p.names| ::
         ToldUpto(Flat(p.tr), h, p.names[j], p.recs[j], |p.recs[j]|)
  }

  lemma ToldKept(a: seq<Entry>, b: seq<Entry>, xs: set<nat>, h: Hash, bno: nat, rs: seq<Rec>)
    requires Rewrote(a, b, xs) && ToldUpto(a, h, bno, rs, |rs|) && Hashes(h, Live(rs)) !! xs
    ensures ToldUpto(b, h, bno, rs, |rs|)
  {
    hide Live, OffsetOf, ItemOf;
    forall j | 0 <= j < |rs| && IsLive(rs[j])
      ensures At(b, h(ItemOf(rs[j]).name), Place(bno, OffsetOf(rs, j)))
    {
      var x := h(ItemOf(rs[j]).name);
      assert At(a, x, Place(bno, OffsetOf(rs, j)));
      LiveMember(rs, j);
      InHashes(h, Live(rs), rs[j]);
      RewroteHash(a, b, xs, x);
    }
  }

  lemma LiveMember(rs: seq<Rec>, j: nat)
    requires j < |rs| && IsLive(rs[j])
    ensures rs[j] in Live(rs)
  {
    hide Live;
    LiveStep(rs, j);
  }

  /** Telling the tree about block k changes nothing for the blocks before it. */
  lemma AllToldKept(h: Hash, p: DirState, p': DirState, i: nat, k: nat)
    requires AllTold(h, p, i) && i <= k < |p.names| && p'.names == p.names && |p'.recs| == |p.recs|
    requires Matched(h, Flat(p.tr), NameList.AllLive(p.recs))
             && Rewrote(Flat(p.tr), Flat(p'.tr), Hashes(h, Live(p.recs[k])))
    requires forall j | 0 <= j < i && j < |p.recs| :: p'.recs[j] == p.recs[j]
    ensures AllTold(h, p', i)
  {
    hide ToldUpto, Rewrote, Matched, Flat, Live, Hashes;
    forall j | 0 <= j < i
      ensures ToldUpto(Flat(p'.tr), h, p'.names[j], p'.recs[j], |p'.recs[j]|)
    {
      HashesApart(h, Flat(p.tr), p.recs, j, k);
      ToldKept(Flat(p.tr), Flat(p'.tr), Hashes(h, Live(p.recs[k])), h, p.names[j], p.recs[j]);
    }
  }

  /** The same directory, with names and entries written anew. */
  ghost predicate SameDir(p: DirState, q: DirState) {
    && q.ino == p.ino && q.loc == p.loc && q.ht == p.ht && |q.names| == |p.names|
    && SameFiles(Flat(p.tr), Flat(q.tr)) && NameList.AllLive(q.recs) == NameList.AllLive(p.recs)
  }

  /** What is done on the way: retelling, the move, retelling. */
  lemma BlockAlong(s: Sys, s1: Sys, s2: Sys, u: Sys, w: Sys, live: set<nat>, r: map<nat, nat>, g: set<nat>, f: set<nat>)
    requires WellLinked(s, live) && Retold(s, s1, g) && Retold(s1, s2, g) && Moved(r, s2, live, u) && Retold(u, w, f)
    requires f <= g && f <= live && forall x | x in f :: x in r && r[x] == x
    ensures Along(s, live, r, w, g)
  {
    hide WellLinked, Retold, Moved, Along, Injective;
    RetoldTwice(s, s1, s2, g, g);
    assert g + g == g;
    AlongIs(s, s2, live, r, u, g);
    MovedInjective(r, s2, live, u);
    FixedOnly(r, f);
    AlongRetold(s, live, r, u, g, w, f);
  }

  /** basicbtfs_defrag_nametree_block: block i of the list goes to off; its tombstones are
      squeezed out, it is filled from its successor, and the tree has the place of each of
      its records. The number of the successor is handed on; the code finds it in the buffer
      of the old block, which nothing has written to since. */
  method DefragNametreeBlock(v: Volume, ino: nat, bno: nat, off: nat, h: Hash, ghost p: DirState, ghost i: nat,
                             ghost off0: nat, ghost live: set<nat>, ghost base: nat)
    returns (ok: bool, next: nat, off': nat, ghost p': DirState, ghost r: map<nat, nat>, ghost cut: nat)
    requires Listing(v, h, p, i, off0, live, base) && i < |p.names| && bno == p.names[i] && off == off0 + i
             && ino == p.ino
    requires off0 + |p.names| <= v.alloc.unused && v.alloc.unused + 1 + CLUSTER_LEN <= v.alloc.bits.Length
    modifies v`blocks, v`iBno, v`info, v.alloc, v.alloc.bits
    ensures ok && off' == off + 1 && Listing(v, h, p', i + 1, off0, r.Values, base)
    ensures next == NameList.NextOf(p'.names, i) && SameDir(p, p') && p'.names == MapNames(r, p.names)
    ensures Refilled(p.recs, p'.recs, i, cut)
    ensures Along(old(Snap(v)), live, r, Snap(v), DirBlocks(p)) && StepMap(r, live, bno, off, old(v.alloc.unused))
    ensures old(v.alloc.unused) <= v.alloc.unused <= old(v.alloc.unused) + 1 + CLUSTER_LEN
  {
    hide WellLinked, HonestAll, Placed, Indexed, Matched, Flat, Foot, HoldsRecs, Rolled, SetBits, Moved, NoStraddle,
         Retold, Squeeze, PullFrom, Live, Rewrote, Hashes, ToldUpto, AllTold, Along, DirAt, AllBelow, InOrder,
         NamesClear, SameFiles, StepMap, AllHave, Refilled;
    ghost var s, mark, n := Snap(v), v.alloc.unused, |p.names|;
    ghost var g := DirBlocks(p);
    NameNotInTree(s, live, v.t, h, p, i);
    ghost var p1, p2, p3;
    ok, p1 := SqueezeStep(v, ino, bno, h, p, i, live, base);
    if !ok {
      return;
    }
    ghost var s1 := Snap(v);
    AllToldKept(h, p, p1, i, i);
    StraddleRetold(s, s1, live, g, off);
    NameNotInTree(s1, live, v.t, h, p1, i);
    HoldsName(s1.disk, bno, p1.recs[i]);
    next := v.blocks[bno].next;
    p2 := p1;
    RetoldNone(s1, g);
    if next != 0 {
      p2 := PullStep(v, ino, bno, next, h, p1, i, live, base);
      cut := SqueezedFilled(p.recs, i);
      NameNotInTree(s1, live, v.t, h, p1, i + 1);
      AllToldKept(h, p1, p2, i, i + 1);
    } else {
      NextNotNull(s1, live, v.t, h, p1, i);
      SqueezedLast(p.recs, i);
      cut := 0;
    }
    ghost var s2 := Snap(v);
    StraddleRetold(s1, s2, live, g, off);
    p3, r := PlaceStep(v, bno, off, h, p2, i, off0, live, base);
    ghost var s3, now := Snap(v), r.Values;
    PlacedNames(s2, live, v.t, h, p2, r, i, off0, mark, s3);
    p' := ReindexStep(v, ino, off, h, p3, i, now, base);
    NameNotInTree(s3, now, v.t, h, p3, i);
    AllToldKept(h, p3, p', i, i);
    OneMoreTold(h, p', i, off);
    StraddleRetold(s3, Snap(v), now, Foot(p.loc), off + 1);
    OrderAt(p.names, i, off0);
    StepFixes(r, live, bno, off, mark, p, off0);
    BlockAlong(s, s1, s2, s3, Snap(v), live, r, g, Foot(p.loc));
    RewroteSame(Flat(p.tr), Flat(p1.tr), Hashes(h, Live(p.recs[i])));
    if next != 0 {
      RewroteSame(Flat(p1.tr), Flat(p2.tr), Hashes(h, Live(p1.recs[i + 1])));
    } else {
      SameFilesSelf(Flat(p1.tr));
    }
    RewroteSame(Flat(p3.tr), Flat(p'.tr), Hashes(h, Live(p3.recs[i])));
    SameFilesTwice(Flat(p.tr), Flat(p1.tr), Flat(p2.tr));
    SameFilesTwice(Flat(p.tr), Flat(p2.tr), Flat(p'.tr));
    off' := off + 1;
  }

  lemma NextNotNull(s: Sys, live: set<nat>, t: nat, h: Hash, p: DirState, i: nat)
    requires DirAt(s, live, t, h, p) && i < |p.names|
    ensures NameList.NextOf(p.names, i) == 0 <==> i + 1 == |p.names|
  {
    hide Foot, Flat, Indexed, Matched;
    RolledAll(s.disk, live, p.names, p.recs);
  }

  lemma OrderAt(names: seq<nat>, i: nat, off0: nat)
    requires InOrder(names, i, off0) && i < |names|
    ensures off0 + i <= names[i]
  {
  }

  lemma SameFilesSelf(a: seq<Entry>)
    ensures SameFiles(a, a)
  {
  }

  lemma OneMoreTold(h: Hash, p: DirState, i: nat, off: nat)
    requires AllTold(h, p, i) && i < |p.names| && p.names[i] == off
             && ToldUpto(Flat(p.tr), h, off, p.recs[i], |p.recs[i]|)
    ensures AllTold(h, p, i + 1)
  {
    hide ToldUpto, Flat;
  }

  /** After the placement the list is in order one block further, and what has been told
      about the blocks before holds. */
  lemma PlacedNames(s: Sys, live: set<nat>, t: nat, h: Hash, p: DirState, r: map<nat, nat>, i: nat, off0: nat,
                    mark: nat, u: Sys)
    requires DirAt(s, live, t, h, p) && i < |p.names| && Moved(r, s, live, u)
             && StepMap(r, live, p.names[i], off0 + i, mark)
    requires off0 + |p.names| <= mark && InOrder(p.names, i, off0) && NamesClear(p.names, i, off0) && AllTold(h, p, i)
    ensures var p' := p.(names := MapNames(r, p.names));
            InOrder(p'.names, i + 1, off0) && NamesClear(p'.names, i + 1, off0) && AllTold(h, p', i)
  {
    hide Indexed, Matched, Flat, Foot, HoldsRecs, Moved, ToldUpto;
    MovedInjective(r, s, live, u);
    RolledAll(s.disk, live, p.names, p.recs);
    OrderNext(r, live, p.names, i, off0, mark);
  }

  lemma StepFixes(r: map<nat, nat>, live: set<nat>, a: nat, off: nat, mark: nat, p: DirState, off0: nat)
    requires StepMap(r, live, a, off, mark) && AllBelow(Foot(p.loc), off0) && off0 <= off <= a && Foot(p.loc) <= live
    ensures Foot(p.loc) <= DirBlocks(p) && forall x | x in Foot(p.loc) :: x in r && r[x] == x
  {
    hide Foot;
  }

  // -------------------------------------------------------------- the list

  ghost predicate Fixes(r: map<nat, nat>, f: set<nat>) { forall x | x in f :: x in r && r[x] == x }

  /** Where the walk along the list stands, seen from its beginning. */
  ghost predicate Walking(s: Sys, live: set<nat>, p: DirState, r: map<nat, nat>, u: Sys, p': DirState, off: nat,
                          mark: nat) {
    && Along(s, live, r, u, DirBlocks(p)) && SameDir(p, p') && p'.names == MapNames(r, p.names)
    && WalkMap(r, live, NameSet(p.names), off, mark) && Fixes(r, Foot(p.loc))
  }

  lemma WalkStart(s: Sys, live: set<nat>, t: nat, h: Hash, p: DirState, off: nat, mark: nat)
    requires WellLinked(s, live) && DirAt(s, live, t, h, p)
    ensures Walking(s, live, p, Idle(live), s, p, off, mark) && Idle(live).Values == live
  {
    hide WellLinked, Moved, Foot, Flat, Indexed, Matched, Retold;
    IdleMap(live);
    MovedNowhere(s, live, Idle(live));
    AlongMoved(s, live, Idle(live), s);
    AlongMore(s, live, Idle(live), s, {}, DirBlocks(p));
    RolledAll(s.disk, live, p.names, p.recs);
    assert MapNames(Idle(live), p.names) == p.names;
    SameFilesSelf(Flat(p.tr));
  }

  lemma NamesTwice(r: map<nat, nat>, q: map<nat, nat>, names: seq<nat>)
    requires (forall i | 0 <= i < |names| :: names[i] in r) && q.Keys == r.Values
    ensures MapNames(Compose(r, q), names) == MapNames(q, MapNames(r, names))
  {
    var a, b := MapNames(Compose(r, q), names), MapNames(q, MapNames(r, names));
    forall i | 0 <= i < |names|
      ensures a[i] == b[i]
    {
      assert r[names[i]] in r.Values;
    }
  }

  /** Blocks of the directory come from blocks of the directory. */
  lemma DirBack(r: map<nat, nat>, live: set<nat>, p: DirState, p': DirState)
    requires r.Keys == live && Injective(r) && Fixes(r, Foot(p.loc)) && p'.loc == p.loc
             && p'.names == MapNames(r, p.names)
    requires forall i | 0 <= i < |p.names| :: p.names[i] in live
    ensures forall b | b in live && b in r && r[b] in DirBlocks(p') :: b in DirBlocks(p)
  {
    hide Foot;
    forall b | b in live && r[b] in DirBlocks(p')
      ensures b in DirBlocks(p)
    {
      if r[b] in Foot(p.loc) {
        assert r[r[b]] == r[b];
      } else {
        var i :| 0 <= i < |p'.names| && p'.names[i] == r[b];
        assert p.names[i] in r && r[p.names[i]] == r[b];
      }
    }
  }

  /** One block further. */
  lemma WalkOn(s: Sys, live: set<nat>, t: nat, h: Hash, p: DirState, r: map<nat, nat>, u: Sys, p1: DirState, q: map<nat,
               nat>, w: Sys, p2: DirState, i: nat, off: nat, o: nat, mark: nat, m1: nat)
    requires WellLinked(s, live) && DirAt(s, live, t, h, p) && Walking(s, live, p, r, u, p1, off, mark) && i < |p.names|
    requires Along(u, r.Values, q, w, DirBlocks(p1)) && SameDir(p1, p2) && p2.names == MapNames(q, p1.names)
    requires StepMap(q, r.Values, p1.names[i], o, m1) && off <= o <= p1.names[i] && mark <= m1
             && AllBelow(Foot(p.loc), off)
    ensures Walking(s, live, p, Compose(r, q), w, p2, off, mark) && Compose(r, q).Values == q.Values
  {
    hide WellLinked, Moved, Foot, Flat, Indexed, Matched, Along, Injective, DirBlocks, Image, Compose;
    AlongFacts(s, live, r, u, DirBlocks(p));
    RolledAll(s.disk, live, p.names, p.recs);
    DirBack(r, live, p, p1);
    AlongTwice(s, live, r, u, DirBlocks(p), q, w, DirBlocks(p1));
    AlongFacts(u, r.Values, q, w, DirBlocks(p1));
    NamesTwice(r, q, p.names);
    SameFilesTwice(Flat(p.tr), Flat(p1.tr), Flat(p2.tr));
    StepIsWalk(q, r.Values, p1.names[i], o, m1);
    NameImage(r, p.names, i);
    WalkTwice(r, q, live, NameSet(p.names), {p1.names[i]}, off, o, mark, m1);
    FixesTwice(r, q, Foot(p.loc), p1.names[i], o, m1, off);
  }

  lemma StepIsWalk(q: map<nat, nat>, live: set<nat>, a: nat, o: nat, mark: nat)
    requires StepMap(q, live, a, o, mark)
    ensures WalkMap(q, live, {a}, o, mark)
  {
  }

  lemma NameImage(r: map<nat, nat>, names: seq<nat>, i: nat)
    requires i < |names| && names[i] in r
    ensures {MapNames(r, names)[i]} <= Image(r, NameSet(names))
  {
    assert names[i] in NameSet(names);
  }

  lemma FixesTwice(r: map<nat, nat>, q: map<nat, nat>, f: set<nat>, a: nat, o: nat, mark: nat, off: nat)
    requires Fixes(r, f) && StepMap(q, r.Values, a, o, mark) && AllBelow(f, off) && off <= o <= a
    ensures Fixes(Compose(r, q), f)
  {
    forall x | x in f
      ensures x in Compose(r, q) && Compose(r, q)[x] == x
    {
      assert x in r && r[x] in r.Values;
    }
  }

  /** The head of the list is what the root says. */
  lemma ListHead(s: Sys, live: set<nat>, t: nat, h: Hash, p: DirState, used: set<nat>, mark: nat, size: nat, base: nat)
    requires WellLinked(s, live) && DirAt(s, live, t, h, p) && Placed(used, mark, size, live, base)
    ensures p.ino in s.iBno && IsTree(s.disk, s.iBno[p.ino]) && s.disk[s.iBno[p.ino]].node.treeName == p.names[0]
    ensures |p.names| >= 1 && forall i | 0 <= i < |p.names| :: 0 < p.names[i] <= size
  {
    hide WellLinked, Foot, Flat, Indexed, Matched, AllBelow;
    RolledAll(s.disk, live, p.names, p.recs);
    forall i | 0 <= i < |p.names|
      ensures p.names[i] <= size
    {
      UsedBlock(used, mark, size, live, base, p.names[i]);
    }
  }

  /** basicbtfs_defrag_nametree: the n blocks of the list end up on off .. off+n-1 in order;
      the live records are the same in the same order, the entries name the same files, and
      every entry addresses its record. */
  method DefragNametree(v: Volume, ino: nat, off: nat, h: Hash, ghost p: DirState, ghost live: set<nat>,
                        ghost base: nat)
    returns (ok: bool, o: nat, ghost p': DirState, ghost r: map<nat, nat>)
    requires Listing(v, h, p, 0, off, live, base) && ino == p.ino
    requires off + |p.names| <= v.alloc.unused && v.alloc.unused + (1 + CLUSTER_LEN) * |p.names| <= v.alloc.bits.Length
    modifies v`blocks, v`iBno, v`info, v.alloc, v.alloc.bits
    ensures ok && o == off + |p.names| && Listing(v, h, p', |p.names|, off, r.Values, base)
    ensures Walking(old(Snap(v)), live, p, r, Snap(v), p', off, old(v.alloc.unused)) && Repacked(p.recs, p'.recs)
    ensures old(v.alloc.unused) <= v.alloc.unused <= old(v.alloc.unused) + (1 + CLUSTER_LEN) * |p.names|
  {
    hide WellLinked, HonestAll, Placed, Indexed, Matched, Flat, Foot, HoldsRecs, Rolled, SetBits, Moved, NoStraddle,
         Retold, AllTold, Along, DirAt, AllBelow, InOrder, NamesClear, Walking, Compose, Refilled, RepackedUpto;
    ghost var s, mark := Snap(v), v.alloc.unused;
    var size := v.alloc.bits.Length;
    ListHead(s, live, v.t, h, p, v.alloc.Used(), mark, size, base);
    WalkStart(s, live, v.t, h, p, off, mark);
    var cur := v.blocks[v.iBno[ino]].node.treeName;
    p', r, o, ok := p, Idle(live), off, true;
    ghost var i: nat := 0;
    ghost var cuts: seq<nat> := seq(|p.recs|, j => 0);
    RepackedStart(p.recs);
    while cur != 0
      invariant RepackedUpto(p.recs, p'.recs, cuts, i) && |cuts| == |p.recs| == |p.names|
      invariant i <= |p.names| && o == off + i && ok && Listing(v, h, p', i, off, r.Values, base)
      invariant |p'.names| == |p.names| && p'.ino == ino
                && (if i < |p.names| then cur == p'.names[i] && cur != 0 else cur == 0)
      invariant Walking(s, live, p, r, Snap(v), p', off, mark)
      invariant mark <= v.alloc.unused <= mark + (1 + CLUSTER_LEN) * i
      decreases |p.names| - i
    {
      ListHead(Snap(v), r.Values, v.t, h, p', v.alloc.Used(), v.alloc.unused, size, base);
      if cur == 0 || cur > size {
        return false, o, p', r;
      }
      ghost var u, p1, m1, o1 := Snap(v), p', v.alloc.unused, o;
      ghost var q, cut;
      OrderAt(p1.names, i, off);
      ok, cur, o, p', q, cut := DefragNametreeBlock(v, ino, cur, o, h, p1, i, off, r.Values, base);
      RepackedOn(p.recs, p1.recs, p'.recs, cuts, i, cut);
      cuts := if i + 1 < |p.recs| then cuts[i + 1 := cut] else cuts;
      WalkAgain(s, live, v.t, h, p, r, u, p1, q, Snap(v), p', i, off, o1, mark, m1);
      r := Compose(r, q);
      i := i + 1;
      NextIs(Snap(v), r.Values, v.t, h, p', i);
    }
    RepackedDone(p.recs, p'.recs, cuts);
  }

  lemma WalkAgain(s: Sys, live: set<nat>, t: nat, h: Hash, p: DirState, r: map<nat, nat>, u: Sys, p1: DirState,
                  q: map<nat, nat>, w: Sys, p2: DirState, i: nat, off: nat, o: nat, mark: nat, m1: nat)
    requires WellLinked(s, live) && DirAt(s, live, t, h, p) && Walking(s, live, p, r, u, p1, off, mark)
             && i < |p1.names|
    requires Along(u, r.Values, q, w, DirBlocks(p1)) && SameDir(p1, p2) && p2.names == MapNames(q, p1.names)
    requires StepMap(q, r.Values, p1.names[i], o, m1) && off <= o <= p1.names[i] && mark <= m1
             && AllBelow(Foot(p1.loc), off)
    ensures Walking(s, live, p, Compose(r, q), w, p2, off, mark) && Compose(r, q).Values == q.Values
    ensures |p2.names| == |p.names| && p2.ino == p.ino
  {
    hide WellLinked, Along, Foot, Flat, DirAt;
    WalkOn(s, live, t, h, p, r, u, p1, q, w, p2, i, off, o, mark, m1);
  }

  lemma NextIs(s: Sys, live: set<nat>, t: nat, h: Hash, p: DirState, i: nat)
    requires DirAt(s, live, t, h, p) && 0 < i <= |p.names|
    ensures NameList.NextOf(p.names, i - 1) == (if i < |p.names| then p.names[i] else 0)
    ensures i < |p.names| ==> p.names[i] != 0
  {
    hide Foot, Flat, Indexed, Matched;
    RolledAll(s.disk, live, p.names, p.recs);
  }
}
