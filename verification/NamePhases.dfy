/** What basicbtfs_defrag_nametree_block does to names and entries, on the volume: squeezing
    a block, filling it from the next one, and telling the directory's tree where every
    record of the block lies. */
module NamePhases {
  import opened Entries
  import opened BTree
  import opened Blocks
  import opened DiskTree
  import opened System
  import opened Defrag
  import opened NameRecords
  import opened NameBlocks
  import opened NameCompact
  import opened NamePlaces
  import opened Wording

  type Hash = seq<nat> -> nat

  // ------------------------------------------------------- names on the volume

  /** A name block on the volume: three counters, then the bytes. */
  function Pack(x: NBlk): Block {
    NameBlock(x.first, x.prev, x.next, [x.nrOfEntries, x.freeBytes, x.startUnused] + x.data)
  }

  function Unpack(b: Block): NBlk
    requires b.NameBlock? && |b.payload| >= 3
  {
    NBlk(b.first, b.prev, b.next, b.payload[0], b.payload[1], b.payload[2], b.payload[3..])
  }

  lemma PackUnpack(x: NBlk)
    ensures Unpack(Pack(x)) == x
  {
  }

  predicate IsNames(d: Disk, b: nat) { IsName(d, b) && |d[b].payload| >= 3 }

  /** Block b holds the records rs. */
  ghost predicate HoldsRecs(d: Disk, b: nat, rs: seq<Rec>) { IsNames(d, b) && Parsed(Unpack(d[b]), rs) }

  /** The directory's tree, with everything a search relies on. */
  ghost predicate Indexed(d: Disk, t: nat, loc: Loc, tr: Tree, ht: nat) {
    2 <= t && Rep(d, t, loc, tr) && Apart(loc) && Shape(t, tr, ht) && Sorted(Flat(tr))
  }

  /** The hashes of the names of ls. */
  ghost function Hashes(h: Hash, ls: seq<Rec>): set<nat> { set r | r in ls :: h(ItemOf(r).name) }

  ghost predicate HasHash(s: seq<Entry>, x: nat) { exists i | 0 <= i < |s| :: s[i].hash == x }

  /** Every record of ls has an entry. */
  ghost predicate AllHave(s: seq<Entry>, h: Hash, ls: seq<Rec>) { forall r | r in ls :: HasHash(s, h(ItemOf(r).name)) }

  /** Only places of entries with hashes of xs differ. */
  ghost predicate Rewrote(a: seq<Entry>, b: seq<Entry>, xs: set<nat>) {
    SameFiles(a, b) && forall i | 0 <= i < |a| && a[i].hash !in xs :: b[i] == a[i]
  }

  lemma RewroteHash(a: seq<Entry>, b: seq<Entry>, xs: set<nat>, x: nat)
    requires Rewrote(a, b, xs) && HasHash(a, x)
    ensures HasHash(b, x)
  {
    var i :| 0 <= i < |a| && a[i].hash == x;
    assert b[i].hash == x;
  }

  lemma RewroteHashes(a: seq<Entry>, b: seq<Entry>, xs: set<nat>, x: nat)
    requires Rewrote(a, b, xs)
    ensures HasHash(a, x) <==> HasHash(b, x)
  {
    if HasHash(a, x) { RewroteHash(a, b, xs, x); }
    if HasHash(b, x) {
      var i :| 0 <= i < |b| && b[i].hash == x;
      assert a[i].hash == x;
    }
  }

  /** The entry of hash x has place p. */
  ghost predicate At(s: seq<Entry>, x: nat, p: Place) {
    HasHash(s, x) && forall i | 0 <= i < |s| && s[i].hash == x :: s[i].nameBno == p.bno && s[i].blockIndex == p.index
  }

  lemma AtSet(s: seq<Entry>, x: nat, p: Place)
    requires HasHash(s, x)
    ensures At(SetPlaceIn(s, x, p), x, p)
    ensures forall y, q | y != x && At(s, y, q) :: At(SetPlaceIn(s, x, p), y, q)
  {
    var r := SetPlaceIn(s, x, p);
    var i :| 0 <= i < |s| && s[i].hash == x;
    assert r[i].hash == x;
    forall y, q | y != x && At(s, y, q)
      ensures At(r, y, q)
    {
      var j :| 0 <= j < |s| && s[j].hash == y;
      assert r[j].hash == y;
    }
  }

  // ------------------------------------------------------------- one place

  lemma {:induction false} SetPlaceShape(t: nat, tr: Tree, h: nat, x: nat, p: Place)
    requires Shape(t, tr, h)
    ensures Shape(t, SetPlace(tr, x, p), h) && |SetPlace(tr, x, p).keys| == |tr.keys|
    decreases tr
  {
    var i := FindKey(tr.keys, x);
    if i < |tr.keys| && tr.keys[i].hash == x {
    } else if i < |tr.kids| {
      SetPlaceShape(t, tr.kids[i], h - 1, x, p);
    }
  }

  lemma {:induction false} FindHas(s: seq<Entry>, x: nat)
    ensures Find(s, x).Some? <==> HasHash(s, x)
  {
    if s != [] {
      FindHas(s[1..], x);
      if HasHash(s, x) && s[0].hash != x {
        var i :| 0 <= i < |s| && s[i].hash == x;
        assert s[1..][i - 1].hash == x;
      }
      if HasHash(s[1..], x) {
        var i :| 0 <= i < |s[1..]| && s[1..][i].hash == x;
        assert s[i + 1].hash == x;
      }
    }
  }

  lemma SetPlaceSorted(s: seq<Entry>, x: nat, p: Place)
    requires Sorted(s)
    ensures Sorted(SetPlaceIn(s, x, p))
  {
  }

  /** One entry learns a place. */
  method TellPlace(v: Volume, root: nat, hash: nat, p: Place, ghost loc: Loc, ghost tr: Tree, ghost ht: nat)
    returns (ok: bool, ghost tr': Tree)
    requires Indexed(v.blocks, v.t, loc, tr, ht) && root == loc.bno
    modifies v`blocks
    ensures ok <==> HasHash(Flat(tr), hash)
    ensures Indexed(v.blocks, v.t, loc, tr', ht) && Flat(tr') == SetPlaceIn(Flat(tr), hash, p)
    ensures Retold(old(Snap(v)), Snap(v), Foot(loc))
  {
    hide Rep, Apart, Shape, Sorted, Foot, Reworded, SetPlace, SetPlaceIn, Flat;
    LookupIsFind(v.t, tr, ht, hash);
    FindHas(Flat(tr), hash);
    SetPlaceShape(v.t, tr, ht, hash, p);
    SetPlaceFlat(v.t, tr, ht, hash, p);
    SetPlaceSorted(Flat(tr), hash, p);
    ok := UpdateNamelistInfo(v, root, hash, p, loc, tr);
    tr' := SetPlace(tr, hash, p);
  }

  // --------------------------------------------------------------- first phase

  /** Rewriting a name block does not touch the tree. */
  lemma NameAside(d: Disk, t: nat, loc: Loc, tr: Tree, ht: nat, b: nat, x: Block)
    requires Indexed(d, t, loc, tr, ht) && IsName(d, b)
    ensures b !in Foot(loc) && Indexed(d[b := x], t, loc, tr, ht)
  {
    hide Rep, Apart, Shape, Flat, Sorted, Foot;
    if b in Foot(loc) { FootTree(d, t, loc, tr, b); }
    RepFrame(d, d[b := x], t, loc, tr);
  }

  lemma RewordOne(s: Sys, b: nat, x: NBlk)
    requires IsNames(s.disk, b) && x.first == s.disk[b].first && x.prev == s.disk[b].prev && x.next == s.disk[b].next
    ensures Retold(s, s.(disk := s.disk[b := Pack(x)]), {b})
  {
  }

  lemma AllHaveOne(s: seq<Entry>, h: Hash, ls: seq<Rec>, r: Rec)
    requires AllHave(s, h, ls) && r in ls
    ensures HasHash(s, h(ItemOf(r).name)) && h(ItemOf(r).name) in Hashes(h, ls)
  {
  }

  /** One place told in the course of a phase. */
  lemma RewroteStep(a: seq<Entry>, b: seq<Entry>, xs: set<nat>, x: nat, p: Place)
    requires Rewrote(a, b, xs) && x in xs
    ensures Rewrote(a, SetPlaceIn(b, x, p), xs)
  {
  }

  lemma RewroteNothing(a: seq<Entry>, xs: set<nat>)
    ensures Rewrote(a, a, xs)
  {
  }

  /** The first n records of ls, packed one behind the other in block bno, are where the
      entries say. */
  ghost predicate ToldLive(es: seq<Entry>, h: Hash, bno: nat, ls: seq<Rec>, n: nat) {
    forall j | 0 <= j < n && j < |ls| :: At(es, h(ItemOf(ls[j]).name), Place(bno, OffsetOf(ls, j)))
  }

  lemma ToldLiveNext(es: seq<Entry>, h: Hash, bno: nat, ls: seq<Rec>, n: nat)
    requires n < |ls| && ToldLive(es, h, bno, ls, n) && Distinguished(h, ls) && HasHash(es, h(ItemOf(ls[n]).name))
    ensures ToldLive(SetPlaceIn(es, h(ItemOf(ls[n]).name), Place(bno, OffsetOf(ls, n))), h, bno, ls, n + 1)
  {
    hide OffsetOf, ItemOf, At, HasHash;
    AtSet(es, h(ItemOf(ls[n]).name), Place(bno, OffsetOf(ls, n)));
  }

  lemma NoneHas(s: seq<Entry>, h: Hash, ls: seq<Rec>, i: nat)
    requires i < |ls| && !HasHash(s, h(ItemOf(ls[i]).name))
    ensures !AllHave(s, h, ls)
  {
    assert ls[i] in ls;
  }

  lemma AllFound(s: seq<Entry>, h: Hash, ls: seq<Rec>)
    requires forall i | 0 <= i < |ls| :: HasHash(s, h(ItemOf(ls[i]).name))
    ensures AllHave(s, h, ls)
  {
  }

  lemma InHashes(h: Hash, ls: seq<Rec>, r: Rec)
    requires r in ls
    ensures h(ItemOf(r).name) in Hashes(h, ls)
  {
  }

  /** The squeezing loop. Afterwards the block holds the same live records in the same order,
      each right behind the one before, and exactly their entries have learned their new
      offsets; it fails exactly when some live name has no entry. */
  method SqueezeBlock(v: Volume, root: nat, bno: nat, h: Hash, ghost loc: Loc, ghost tr: Tree, ghost ht: nat,
                      ghost rs: seq<Rec>)
    returns (ok: bool, ghost tr': Tree)
    requires Indexed(v.blocks, v.t, loc, tr, ht) && root == loc.bno && HoldsRecs(v.blocks, bno, rs)
             && Distinguished(h, Live(rs))
    modifies v`blocks
    ensures ok <==> AllHave(Flat(tr), h, Live(rs))
    ensures Indexed(v.blocks, v.t, loc, tr', ht) && Rewrote(Flat(tr), Flat(tr'), Hashes(h, Live(rs)))
    ensures ok ==> HoldsRecs(v.blocks, bno, Squeeze(rs)) && ToldLive(Flat(tr'), h, bno, Live(rs), |Live(rs)|)
    ensures Retold(old(Snap(v)), Snap(v), Foot(loc) + {bno})
  {
    hide EncAll, Live, OffsetOf, Squeeze, ItemOf, Pulled, Standing, Indexed, Flat, Foot, Retold, Rewrote, AllHave,
         Hashes, Word, Parsed, SetPlaceIn, ToldLive, HasHash, Distinguished;
    ghost var s, x, xs := Snap(v), Unpack(v.blocks[bno]), Hashes(h, Live(rs));
    tr' := tr;
    var i: nat, pos: nat := 0, FIRST_RECORD;
    ghost var k: nat := 0;
    SqueezeStart(x, rs);
    RetoldNone(s, Foot(loc) + {bno});
    RewroteNothing(Flat(tr), xs);
    NoneTold(Flat(tr), h, bno, Live(rs));
    while i < v.blocks[bno].payload[0]
      invariant i <= |Live(rs)| && IsNames(v.blocks, bno) && v.blocks[bno].payload[0] == |Live(rs)|
      invariant Standing(x, Unpack(v.blocks[bno]), rs, k, i, pos)
      invariant Indexed(v.blocks, v.t, loc, tr', ht) && Rewrote(Flat(tr), Flat(tr'), xs)
      invariant Retold(s, Snap(v), Foot(loc) + {bno})
      invariant ToldLive(Flat(tr'), h, bno, Live(rs), i)
                && forall j | 0 <= j < i :: HasHash(Flat(tr), h(ItemOf(Live(rs)[j]).name))
      decreases |rs| - k
    {
      ghost var s1, tr1 := Snap(v), tr';
      var y := Unpack(v.blocks[bno]);
      StandingRecord(x, y, rs, k, i, pos);
      NameAside(v.blocks, v.t, loc, tr', ht, bno, v.blocks[bno]);
      var ino, len := Word(y.data, pos), Word(y.data, pos + 4);
      if ino != 0 {
        StandingLive(x, y, rs, k, i, pos);
        var name := y.data[pos + RECORD_HDR..pos + RECORD_HDR + len];
        NameHash(rs[k]);
        RewroteHashes(Flat(tr), Flat(tr'), xs, h(ItemOf(rs[k]).name));
        InHashes(h, Live(rs), Live(rs)[i]);
        ok, tr' := TellPlace(v, root, h(name[..len - 1]), Place(bno, pos), loc, tr', ht);
        RewroteStep(Flat(tr), Flat(tr1), xs, h(name[..len - 1]), Place(bno, pos));
        RetoldTwice(s, s1, Snap(v), Foot(loc) + {bno}, Foot(loc));
        SameUnion(Foot(loc), bno);
        if !ok {
          NoneHas(Flat(tr), h, Live(rs), i);
          return;
        }
        ToldLiveNext(Flat(tr1), h, bno, Live(rs), i);
        RetoldOther(s1, Snap(v), Foot(loc), bno);
        i := i + 1;
        pos := pos + RECORD_HDR + len;
      } else {
        StandingTomb(x, y, rs, k, i, pos);
        var d := PullTail(y.data, pos, RECORD_HDR + len);
        var z := y.(startUnused := y.startUnused - (RECORD_HDR + len), data := d);
        NameAside(v.blocks, v.t, loc, tr', ht, bno, Pack(z));
        RewordOne(s1, bno, z);
        PackUnpack(z);
        v.blocks := v.blocks[bno := Pack(z)];
        RetoldTwice(s, s1, Snap(v), Foot(loc) + {bno}, {bno});
        SameUnion(Foot(loc), bno);
      }
      k := k + 1;
    }
    AllFound(Flat(tr), h, Live(rs));
    SqueezeEnd(x, Unpack(v.blocks[bno]), rs, k, pos);
    ok := true;
  }

  lemma NoneTold(es: seq<Entry>, h: Hash, bno: nat, ls: seq<Rec>)
    ensures ToldLive(es, h, bno, ls, 0)
  {
  }

  lemma SqueezeStart(x: NBlk, rs: seq<Rec>)
    requires Parsed(x, rs)
    ensures Standing(x, x, rs, 0, 0, FIRST_RECORD) && x.nrOfEntries == |Live(rs)|
  {
    assert rs[..0] == [] && Live(rs)[..0] == [] && Midway(rs, 0) == rs && rs[..|rs|] == rs;
  }

  lemma SameUnion(f: set<nat>, b: nat)
    ensures f + {b} + f == f + {b} && f + {b} + {b} == f + {b}
  {
  }

  /** A block outside the changes is as it was. */
  lemma RetoldOther(s: Sys, u: Sys, f: set<nat>, b: nat)
    requires Retold(s, u, f) && b !in f && b in s.disk
    ensures b in u.disk && u.disk[b] == s.disk[b]
  {
  }
}
