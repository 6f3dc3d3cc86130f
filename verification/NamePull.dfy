/** The second and third phase of basicbtfs_defrag_nametree_block: filling a name block from
    the next one, and telling the tree where all its records lie. As written neither loop
    moves its positions along; what follows from that is stated first, and the loops that the
    volume goes through here advance (second phase) and restart (third phase) them. */
module NamePull {
  import opened Entries
  import opened BTree
  import opened Blocks
  import opened DiskTree
  import opened System
  import opened Defrag
  import opened NameRecords
  import opened NameBlocks
  import opened NameCompact
  import opened NamePlaces
  import opened Wording
  import opened NamePhases
  import NameList

  // --------------------------------------------------------- as it is written

  /** The loop as written looks at the first record of the next block again and again: i is
      its counter, live whether that record still is one, start where the used part of the
      current block ends. */
  datatype Pulling = Pulling(i: nat, live: bool, start: nat)

  /** One round with n live records in the next block, the first record's name len long. */
  function PullRound(n: nat, len: nat, p: Pulling): Option<Pulling> {
    if p.i >= n || !NameList.HasRoom(p.start, len) then None
    else if p.live then Some(Pulling(p.i + 1, false, p.start + RECORD_HDR + len))
    else Some(p)
  }

  function PullRounds(n: nat, len: nat, p: Pulling, rounds: nat): Option<Pulling>
    decreases rounds
  {
    if rounds == 0 then Some(p) else
      match PullRound(n, len, p)
      case None => None
      case Some(q) => PullRounds(n, len, q, rounds - 1)
  }

  /** The loop as written comes to an end if and only if there is nothing to pull, the first
      record does not fit, or it is live and after it has been pulled nothing is left or it
      would not fit again. */
  lemma PullStops(n: nat, len: nat, live: bool, start: nat)
    ensures (exists rounds :: PullRounds(n, len, Pulling(0, live, start), rounds) == None)
            <==> n == 0 || !NameList.HasRoom(start, len)
                 || (live && (n == 1 || !NameList.HasRoom(start + RECORD_HDR + len, len)))
  {
    var p, q := Pulling(0, live, start), Pulling(1, false, start + RECORD_HDR + len);
    PullTwo(n, len, p);
    if PullRound(n, len, p) != None && !(live && PullRound(n, len, q) == None) {
      forall rounds: nat
        ensures PullRounds(n, len, p, rounds) != None
      {
        if !live {
          Stalled(n, len, p, rounds);
        } else if rounds > 0 {
          Stalled(n, len, q, rounds - 1);
        }
      }
    }
  }

  lemma PullTwo(n: nat, len: nat, p: Pulling)
    ensures PullRounds(n, len, p, 1) == PullRound(n, len, p)
    ensures PullRounds(n, len, p, 2)
              == match PullRound(n, len, p) case None => None case Some(q) => PullRound(n, len, q)
  {
    match PullRound(n, len, p)
    case None =>
    case Some(q) => assert PullRounds(n, len, q, 1) == PullRound(n, len, q);
  }

  lemma {:induction false} Stalled(n: nat, len: nat, p: Pulling, rounds: nat)
    requires !p.live && PullRound(n, len, p) != None
    ensures PullRounds(n, len, p, rounds) == Some(p)
    decreases rounds
  {
    if rounds > 0 { Stalled(n, len, p, rounds - 1); }
  }

  /** The place the third phase as written tells the tree for record k: the block's old
      number, and an offset counted on from where the first phase stopped. */
  function ToldPlace(oldBno: nat, pos: nat, rs: seq<Rec>, k: nat): Place
    requires k <= |rs|
  {
    Place(oldBno, pos + OffsetOf(rs, k))
  }

  /** ... which is right for all live records of a block if and only if it has none. */
  lemma ToldRight(oldBno: nat, newBno: nat, pos: nat, rs: seq<Rec>)
    requires FIRST_RECORD <= pos
    ensures (forall k | 0 <= k < |rs| && IsLive(rs[k]) ::
               ToldPlace(oldBno, pos, rs, k) == Place(newBno, OffsetOf(rs, k)))
            <==> Live(rs) == []
  {
    hide OffsetOf;
    LiveNone(rs);
  }

  lemma {:induction false} LiveNone(rs: seq<Rec>)
    ensures Live(rs) == [] <==> forall k | 0 <= k < |rs| :: !IsLive(rs[k])
  {
    if rs != [] {
      LiveNone(rs[1..]);
      assert forall k | 0 < k < |rs| :: rs[k] == rs[1..][k - 1];
    }
  }

  // -------------------------------------------------------------- on records

  /** Records k, k+1, ... of qs move to the end of rs as long as they fit; tombstones are
      passed over and moved records leave tombstones. */
  function PullFrom(rs: seq<Rec>, qs: seq<Rec>, k: nat): (seq<Rec>, seq<Rec>)
    requires k <= |qs|
    decreases |qs| - k
  {
    if k == |qs| || Live(qs[k..]) == [] || !NameList.HasRoom(OffsetOf(rs, |rs|), |qs[k].name|) then (rs, qs)
    else if IsLive(qs[k]) then PullFrom(rs + [qs[k]], Tomb(qs, k), k + 1)
    else PullFrom(rs, qs, k + 1)
  }

  /** One live record moved from the front of one list to the end of another. */
  lemma PullOne(rs: seq<Rec>, qs: seq<Rec>, k: nat)
    requires k < |qs| && IsLive(qs[k]) && Live(qs[..k]) == []
    ensures Live(rs + [qs[k]]) == Live(rs) + [qs[k]]
    ensures Live(qs) == [qs[k]] + Live(Tomb(qs, k)) && Live(Tomb(qs, k)[..k + 1]) == []
    ensures Tomb(qs, k)[k + 1..] == qs[k + 1..]
  {
    hide Live;
    var ts := Tomb(qs, k);
    LiveAppend(rs, [qs[k]]);
    LiveOne(qs[k]);
    LiveStep(qs, k);
    LiveStep(ts, k);
    assert ts[..k] == qs[..k] && ts[k + 1..] == qs[k + 1..];
  }

  lemma PullPast(qs: seq<Rec>, k: nat)
    requires k < |qs| && !IsLive(qs[k]) && Live(qs[..k]) == []
    ensures Live(qs[..k + 1]) == []
  {
    hide Live;
    LiveStep(qs, k);
  }

  /** The live records of both blocks together stay the same, in the same order. */
  lemma {:induction false} PullLive(rs: seq<Rec>, qs: seq<Rec>, k: nat)
    requires k <= |qs| && Live(qs[..k]) == []
    ensures var (a, b) := PullFrom(rs, qs, k); Live(a) + Live(b) == Live(rs) + Live(qs)
    decreases |qs| - k
  {
    hide Live, OffsetOf;
    if k == |qs| || Live(qs[k..]) == [] || !NameList.HasRoom(OffsetOf(rs, |rs|), |qs[k].name|) {
    } else if IsLive(qs[k]) {
      PullOne(rs, qs, k);
      PullLive(rs + [qs[k]], Tomb(qs, k), k + 1);
      assert (Live(rs) + [qs[k]]) + Live(Tomb(qs, k)) == Live(rs) + ([qs[k]] + Live(Tomb(qs, k)));
    } else {
      PullPast(qs, k);
      PullLive(rs, qs, k + 1);
    }
  }

  /** Live records ahead, counted. */
  lemma LiveAhead(qs: seq<Rec>, k: nat)
    requires k <= |qs| && Live(qs[..k]) == []
    ensures Live(qs[k..]) == Live(qs) && (Live(qs) != [] ==> k < |qs|)
  {
    hide Live;
    assert qs[..k] + qs[k..] == qs;
    LiveAppend(qs[..k], qs[k..]);
    LiveEmpty();
  }

  lemma LiveEmpty()
    ensures Live([]) == []
  {
  }

  // ----------------------------------------------------------- second phase

  /** The bytes of record k. */
  lemma RecordBytes(d: seq<nat>, rs: seq<Rec>, k: nat)
    requires Packed(d, rs) && k < |rs|
    ensures var o, l := OffsetOf(rs, k), RECORD_HDR + |rs[k].name|;
            o + l <= |d| && d[o..o + l] == Enc(rs[k])
  {
    hide EncAll, Enc, OffsetOf;
    OffsetStep(rs, k);
    OffsetIs(rs, k);
    RecordInside(d, FIRST_RECORD, OffsetOf(rs, |rs|), EncAll(rs[..k]), Enc(rs[k]), EncAll(rs[k + 1..]));
  }

  /** Where the loop stands: k records of the next block are behind, m of them pulled; both
      headers still count as before. */
  ghost predicate Filling(x: NBlk, y: NBlk, rs: seq<Rec>, qs: seq<Rec>, ps: seq<Rec>, ts: seq<Rec>, k: nat, m: nat,
                          n: nat, pos: nat) {
    && k <= |ts| && Live(ts[..k]) == [] && pos == OffsetOf(ts, k) && n == |Live(ts)| + m
    && PullFrom(ps, ts, k) == PullFrom(rs, qs, 0)
    && m <= y.nrOfEntries && Parsed(x.(nrOfEntries := x.nrOfEntries + m), ps)
    && Parsed(y.(nrOfEntries := y.nrOfEntries - m), ts)
  }

  lemma FillStart(x: NBlk, y: NBlk, rs: seq<Rec>, qs: seq<Rec>)
    requires Parsed(x, rs) && Parsed(y, qs)
    ensures Filling(x, y, rs, qs, rs, qs, 0, 0, y.nrOfEntries, FIRST_RECORD) && y.nrOfEntries == |Live(qs)|
  {
    hide PullFrom, EncAll;
    FirstOffset(qs);
    assert qs[..0] == [];
  }

  /** The record the loop looks at. */
  lemma FillRecord(x: NBlk, y: NBlk, rs: seq<Rec>, qs: seq<Rec>, ps: seq<Rec>, ts: seq<Rec>, k: nat, m: nat, n: nat,
                   pos: nat)
    requires Filling(x, y, rs, qs, ps, ts, k, m, n, pos) && m < n
    ensures k < |ts| && Live(ts[k..]) != [] && WellSized(ts[k]) && x.startUnused == OffsetOf(ps, |ps|)
    ensures pos + RECORD_HDR + |ts[k].name| <= |y.data| && Word(y.data, pos) == ts[k].ino
            && Word(y.data, pos + 4) == |ts[k].name|
    ensures y.data[pos + RECORD_HDR..pos + RECORD_HDR + |ts[k].name|] == ts[k].name
    ensures y.data[pos..pos + RECORD_HDR + |ts[k].name|] == Enc(ts[k])
  {
    hide Live, EncAll, Enc, OffsetOf, Packed, Word, PullFrom;
    LiveAhead(ts, k);
    PackedRecord(y.data, ts, k);
    RecordBytes(y.data, ts, k);
  }

  lemma FillTomb(x: NBlk, y: NBlk, rs: seq<Rec>, qs: seq<Rec>, ps: seq<Rec>, ts: seq<Rec>, k: nat, m: nat, n: nat,
                 pos: nat)
    requires Filling(x, y, rs, qs, ps, ts, k, m, n, pos) && m < n && k < |ts| && !IsLive(ts[k])
    requires NameList.HasRoom(x.startUnused, |ts[k].name|)
    ensures Filling(x, y, rs, qs, ps, ts, k + 1, m, n, pos + RECORD_HDR + |ts[k].name|)
  {
    hide Live, EncAll, Enc, OffsetOf, Packed;
    LiveAhead(ts, k);
    PullPast(ts, k);
    OffsetStep(ts, k);
  }

  /** A live record goes over. */
  lemma FillLive(x: NBlk, y: NBlk, rs: seq<Rec>, qs: seq<Rec>, ps: seq<Rec>, ts: seq<Rec>, k: nat, m: nat, n: nat,
                 pos: nat)
    requires Filling(x, y, rs, qs, ps, ts, k, m, n, pos) && m < n && k < |ts| && IsLive(ts[k])
    requires NameList.HasRoom(x.startUnused, |ts[k].name|)
    ensures var size := RECORD_HDR + |ts[k].name|;
            && size <= x.freeBytes && x.startUnused + size <= |x.data| && pos + RECORD_HDR <= |y.data|
            && pos + size <= |y.data|
            && Filling(x.(data := Splice(x.data, x.startUnused, Enc(ts[k])), freeBytes := x.freeBytes - size,
                          startUnused := x.startUnused + size),
                       y.(data := Splice(y.data, pos, Le32(0)), freeBytes := y.freeBytes + size),
                       rs, qs, ps + [ts[k]], Tomb(ts, k), k + 1, m + 1, n, pos + size)
  {
    hide Live, EncAll, Enc, OffsetOf, Packed, Splice, Le32, Word;
    FillRecord(x, y, rs, qs, ps, ts, k, m, n, pos);
    LiveAhead(ts, k);
    PullOne(ps, ts, k);
    Appended(x.(nrOfEntries := x.nrOfEntries + m), ps, ts[k]);
    Tombed(y.(nrOfEntries := y.nrOfEntries - m), ts, k);
    OffsetStep(ts, k);
    TombOffset(ts, k);
  }

  lemma TombOffset(ts: seq<Rec>, k: nat)
    requires k < |ts|
    ensures OffsetOf(Tomb(ts, k), k + 1) == OffsetOf(ts, k + 1)
  {
    OffsetTomb(ts, k, k + 1);
  }

  /** The loop is over: what has been pulled is what PullFrom pulls. */
  lemma FillEnd(x: NBlk, y: NBlk, rs: seq<Rec>, qs: seq<Rec>, ps: seq<Rec>, ts: seq<Rec>, k: nat, m: nat, n: nat,
                pos: nat)
    requires Filling(x, y, rs, qs, ps, ts, k, m, n, pos) && m <= n
    requires m == n || (k < |ts| && !NameList.HasRoom(x.startUnused, |ts[k].name|))
    ensures (ps, ts) == PullFrom(rs, qs, 0)
  {
    hide Live, EncAll, Enc, OffsetOf, Packed;
    LiveAhead(ts, k);
  }

  /** Every record of a is one of b. */
  ghost predicate Part(a: seq<Rec>, b: seq<Rec>) { forall r | r in a :: r in b }

  lemma PartStep(ts: seq<Rec>, qs: seq<Rec>, k: nat)
    requires k < |ts| && IsLive(ts[k]) && Live(ts[..k]) == [] && Part(Live(ts), Live(qs))
    ensures ts[k] in Live(qs) && Part(Live(Tomb(ts, k)), Live(qs))
  {
    hide Live;
    PullOne([], ts, k);
  }

  /** memcpy of a whole record to the end of the used part. */
  method CopyRecord(x: NBlk, y: NBlk, pos: nat, size: nat) returns (z: NBlk)
    requires x.startUnused + size <= |x.data| && pos + size <= |y.data| && size <= x.freeBytes
    ensures z == x.(data := Splice(x.data, x.startUnused, y.data[pos..pos + size]), freeBytes := x.freeBytes - size,
                    startUnused := x.startUnused + size)
  {
    var d := CopyBytes(x.data, x.startUnused, y.data[pos..pos + size]);
    z := x.(data := d, freeBytes := x.freeBytes - size, startUnused := x.startUnused + size);
  }

  /** A block of names is rewritten. */
  method WriteNames(v: Volume, b: nat, x: NBlk, ghost loc: Loc, ghost tr: Tree, ghost ht: nat, ghost s: Sys,
                    ghost f: set<nat>)
    requires IsNames(v.blocks, b) && x.first == v.blocks[b].first && x.prev == v.blocks[b].prev
             && x.next == v.blocks[b].next
    requires Indexed(v.blocks, v.t, loc, tr, ht) && Retold(s, Snap(v), f) && b in f
    modifies v`blocks
    ensures IsNames(v.blocks, b) && Unpack(v.blocks[b]) == x && v.blocks == old(v.blocks)[b := Pack(x)]
    ensures Indexed(v.blocks, v.t, loc, tr, ht) && Retold(s, Snap(v), f)
  {
    hide Indexed, Retold, Reworded;
    NameAside(v.blocks, v.t, loc, tr, ht, b, Pack(x));
    RewordOne(Snap(v), b, x);
    PackUnpack(x);
    ghost var s1 := Snap(v);
    v.blocks := v.blocks[b := Pack(x)];
    RetoldTwice(s, s1, Snap(v), f, {b});
    assert f + {b} == f;
  }

  /** An entry learns a place in the course of a phase. */
  method TellIn(v: Volume, root: nat, hash: nat, p: Place, ghost loc: Loc, ghost tr: Tree, ghost ht: nat, ghost s: Sys,
                ghost f: set<nat>)
    returns (ok: bool, ghost tr': Tree)
    requires Indexed(v.blocks, v.t, loc, tr, ht) && root == loc.bno && Retold(s, Snap(v), f) && Foot(loc) <= f
    modifies v`blocks
    ensures ok <==> HasHash(Flat(tr), hash)
    ensures Indexed(v.blocks, v.t, loc, tr', ht) && Flat(tr') == SetPlaceIn(Flat(tr), hash, p)
    ensures Retold(s, Snap(v), f)
    ensures forall b | IsName(old(v.blocks), b) :: b in v.blocks && v.blocks[b] == old(v.blocks)[b]
  {
    hide Indexed, Retold, Reworded, Foot, SetPlaceIn, Flat;
    ghost var s1 := Snap(v);
    ok, tr' := TellPlace(v, root, hash, p, loc, tr, ht);
    RetoldTwice(s, s1, Snap(v), f, Foot(loc));
    assert f + Foot(loc) == f;
    forall b | IsName(s1.disk, b)
      ensures b in v.blocks && v.blocks[b] == s1.disk[b]
    {
      NameAside(s1.disk, v.t, loc, tr, ht, b, s1.disk[b]);
      RetoldOther(s1, Snap(v), Foot(loc), b);
    }
  }

  /** The volume while the loop runs. */
  ghost predicate Pulls(v: Volume, s: Sys, h: Hash, loc: Loc, tr0: Tree, tr: Tree, ht: nat, bno: nat, next: nat,
                        rs: seq<Rec>, qs: seq<Rec>, ps: seq<Rec>, ts: seq<Rec>, k: nat, m: nat, n: nat, pos: nat)
    reads v
  {
    && bno != next && IsNames(v.blocks, bno) && IsNames(v.blocks, next)
    && Filling(Unpack(v.blocks[bno]), Unpack(v.blocks[next]), rs, qs, ps, ts, k, m, n, pos) && Part(Live(ts), Live(qs))
    && Indexed(v.blocks, v.t, loc, tr, ht) && Rewrote(Flat(tr0), Flat(tr), Hashes(h, Live(qs)))
    && Retold(s, Snap(v), Foot(loc) + {bno, next})
  }

  /** A live record goes over. The copy goes to the end of the used part; the place told is
      the one the code has at hand, the record's old offset. */
  method PullRecord(v: Volume, root: nat, bno: nat, next: nat, h: Hash, pos: nat, ghost s: Sys, ghost loc: Loc,
                    ghost tr0: Tree, ghost tr: Tree, ghost ht: nat, ghost rs: seq<Rec>, ghost qs: seq<Rec>,
                    ghost ps: seq<Rec>, ghost ts: seq<Rec>, ghost k: nat, ghost m: nat, ghost n: nat)
    returns (size: nat, ghost tr': Tree)
    requires Pulls(v, s, h, loc, tr0, tr, ht, bno, next, rs, qs, ps, ts, k, m, n, pos) && root == loc.bno && m < n
    requires k < |ts| && IsLive(ts[k]) && NameList.HasRoom(Unpack(v.blocks[bno]).startUnused, |ts[k].name|)
    modifies v`blocks
    ensures k < |ts| && size == RECORD_HDR + |ts[k].name|
    ensures Pulls(v, s, h, loc, tr0, tr', ht, bno, next, rs, qs, ps + [ts[k]], Tomb(ts, k), k + 1, m + 1, n, pos + size)
  {
    hide EncAll, Enc, Live, Le32, OffsetOf, ItemOf, Indexed, Flat, Foot, Retold, Rewrote, Hashes, Word, Parsed,
         SetPlaceIn, Filling, Splice, Part, PullFrom, Packed, Reworded;
    ghost var xs, f := Hashes(h, Live(qs)), Foot(loc) + {bno, next};
    var x, y := Unpack(v.blocks[bno]), Unpack(v.blocks[next]);
    FillRecord(x, y, rs, qs, ps, ts, k, m, n, pos);
    FillLive(x, y, rs, qs, ps, ts, k, m, n, pos);
    FillHeads(x, y, rs, qs, ps, ts, k, m, n, pos);
    PartStep(ts, qs, k);
    NameHash(ts[k]);
    InHashes(h, Live(qs), ts[k]);
    var len := Word(y.data, pos + 4);
    size := RECORD_HDR + len;
    var z := CopyRecord(x, y, pos, size);
    WriteNames(v, bno, z, loc, tr, ht, s, f);
    var e := CopyBytes(y.data, pos, Le32(0));
    WriteNames(v, next, y.(data := e, freeBytes := y.freeBytes + size), loc, tr, ht, s, f);
    var name := y.data[pos + RECORD_HDR..pos + RECORD_HDR + len];
    ghost var found;
    found, tr' := TellIn(v, root, h(name[..len - 1]), Place(bno, pos), loc, tr, ht, s, f);
    RewroteStep(Flat(tr0), Flat(tr), xs, h(name[..len - 1]), Place(bno, pos));
  }

  lemma PullsHeads(v: Volume, s: Sys, h: Hash, loc: Loc, tr0: Tree, tr: Tree, ht: nat, bno: nat, next: nat,
                   rs: seq<Rec>, qs: seq<Rec>, ps: seq<Rec>, ts: seq<Rec>, k: nat, m: nat, n: nat, pos: nat)
    requires Pulls(v, s, h, loc, tr0, tr, ht, bno, next, rs, qs, ps, ts, k, m, n, pos)
    ensures IsNames(v.blocks, bno) && IsNames(v.blocks, next)
    ensures Filling(Unpack(v.blocks[bno]), Unpack(v.blocks[next]), rs, qs, ps, ts, k, m, n, pos)
  {
  }

  lemma PullsTomb(v: Volume, s: Sys, h: Hash, loc: Loc, tr0: Tree, tr: Tree, ht: nat, bno: nat, next: nat, rs: seq<Rec>,
                  qs: seq<Rec>, ps: seq<Rec>, ts: seq<Rec>, k: nat, m: nat, n: nat, pos: nat)
    requires Pulls(v, s, h, loc, tr0, tr, ht, bno, next, rs, qs, ps, ts, k, m, n, pos) && m < n && k < |ts|
             && !IsLive(ts[k])
    requires NameList.HasRoom(Unpack(v.blocks[bno]).startUnused, |ts[k].name|)
    ensures Pulls(v, s, h, loc, tr0, tr, ht, bno, next, rs, qs, ps, ts, k + 1, m, n, pos + RECORD_HDR + |ts[k].name|)
  {
    hide Filling, Live, Part, Indexed, Rewrote, Retold, Flat, Hashes, Foot;
    FillTomb(Unpack(v.blocks[bno]), Unpack(v.blocks[next]), rs, qs, ps, ts, k, m, n, pos);
  }

  /** The counters of both headers, when the loop is over. */
  method PullCounts(v: Volume, bno: nat, next: nat, h: Hash, moved: nat, pos: nat, ghost s: Sys, ghost loc: Loc,
                    ghost tr0: Tree, ghost tr: Tree, ghost ht: nat, ghost rs: seq<Rec>, ghost qs: seq<Rec>,
                    ghost ps: seq<Rec>, ghost ts: seq<Rec>, ghost k: nat, ghost n: nat)
    requires Pulls(v, s, h, loc, tr0, tr, ht, bno, next, rs, qs, ps, ts, k, moved, n, pos)
             && (ps, ts) == PullFrom(rs, qs, 0)
    modifies v`blocks
    ensures Indexed(v.blocks, v.t, loc, tr, ht) && Rewrote(Flat(tr0), Flat(tr), Hashes(h, Live(qs)))
    ensures HoldsRecs(v.blocks, bno, ps) && HoldsRecs(v.blocks, next, ts) && Retold(s, Snap(v), Foot(loc) + {bno, next})
  {
    hide EncAll, Live, OffsetOf, Indexed, Flat, Foot, Retold, Rewrote, Hashes, Parsed, Filling, Part, PullFrom, Packed,
         Reworded;
    ghost var f := Foot(loc) + {bno, next};
    var x, y := Unpack(v.blocks[bno]), Unpack(v.blocks[next]);
    FillCounts(x, y, rs, qs, ps, ts, k, moved, n, pos);
    WriteNames(v, next, y.(nrOfEntries := y.nrOfEntries - moved), loc, tr, ht, s, f);
    WriteNames(v, bno, x.(nrOfEntries := x.nrOfEntries + moved), loc, tr, ht, s, f);
  }

  /** Filling block bno from the next one; the next record is looked at after each round (the
      repair). */
  method PullNext(v: Volume, root: nat, bno: nat, next: nat, h: Hash, ghost loc: Loc, ghost tr: Tree, ghost ht: nat,
                  ghost rs: seq<Rec>, ghost qs: seq<Rec>)
    returns (ghost tr': Tree)
    requires Indexed(v.blocks, v.t, loc, tr, ht) && root == loc.bno && bno != next
    requires HoldsRecs(v.blocks, bno, rs) && HoldsRecs(v.blocks, next, qs)
    modifies v`blocks
    ensures Indexed(v.blocks, v.t, loc, tr', ht) && Rewrote(Flat(tr), Flat(tr'), Hashes(h, Live(qs)))
    ensures HoldsRecs(v.blocks, bno, PullFrom(rs, qs, 0).0) && HoldsRecs(v.blocks, next, PullFrom(rs, qs, 0).1)
    ensures Retold(old(Snap(v)), Snap(v), Foot(loc) + {bno, next})
  {
    hide EncAll, Enc, Live, Le32, OffsetOf, ItemOf, Indexed, Flat, Foot, Retold, Rewrote, Hashes, Word, Parsed,
         Filling, Part, PullFrom, Packed, Pulls;
    ghost var s := Snap(v);
    var n := v.blocks[next].payload[0];
    var i: nat, moved: nat, pos: nat := 0, 0, FIRST_RECORD;
    ghost var ps, ts, k: nat := rs, qs, 0;
    tr' := tr;
    PullsStart(v, h, loc, tr, ht, bno, next, rs, qs);
    var fits := true;
    while i < n && fits
      invariant i == moved <= n && IsNames(v.blocks, bno) && IsNames(v.blocks, next)
      invariant Pulls(v, s, h, loc, tr, tr', ht, bno, next, rs, qs, ps, ts, k, moved, n, pos)
      invariant !fits ==> k < |ts| && !NameList.HasRoom(Unpack(v.blocks[bno]).startUnused, |ts[k].name|)
      decreases fits, |ts| - k
    {
      PullsHeads(v, s, h, loc, tr, tr', ht, bno, next, rs, qs, ps, ts, k, moved, n, pos);
      var x, y := Unpack(v.blocks[bno]), Unpack(v.blocks[next]);
      FillRecord(x, y, rs, qs, ps, ts, k, moved, n, pos);
      var ino, len := Word(y.data, pos), Word(y.data, pos + 4);
      if !NameList.HasRoom(x.startUnused, len) {
        fits := false;
      } else if ino != 0 {
        var size;
        size, tr' := PullRecord(v, root, bno, next, h, pos, s, loc, tr, tr', ht, rs, qs, ps, ts, k, moved, n);
        ps, ts := ps + [ts[k]], Tomb(ts, k);
        moved := moved + 1;
        i := i + 1;
        pos := pos + size;
        k := k + 1;
        PullsHeads(v, s, h, loc, tr, tr', ht, bno, next, rs, qs, ps, ts, k, moved, n, pos);
      } else {
        PullsTomb(v, s, h, loc, tr, tr', ht, bno, next, rs, qs, ps, ts, k, moved, n, pos);
        pos := pos + RECORD_HDR + len;
        k := k + 1;
      }
    }
    PullsHeads(v, s, h, loc, tr, tr', ht, bno, next, rs, qs, ps, ts, k, moved, n, pos);
    FillEnd(Unpack(v.blocks[bno]), Unpack(v.blocks[next]), rs, qs, ps, ts, k, moved, n, pos);
    PullCounts(v, bno, next, h, moved, pos, s, loc, tr, tr', ht, rs, qs, ps, ts, k, n);
  }

  lemma PullsStart(v: Volume, h: Hash, loc: Loc, tr: Tree, ht: nat, bno: nat, next: nat, rs: seq<Rec>, qs: seq<Rec>)
    requires Indexed(v.blocks, v.t, loc, tr, ht) && bno != next && HoldsRecs(v.blocks, bno, rs)
             && HoldsRecs(v.blocks, next, qs)
    ensures Pulls(v, Snap(v), h, loc, tr, tr, ht, bno, next, rs, qs, rs, qs, 0, 0, v.blocks[next].payload[0],
                  FIRST_RECORD)
  {
    hide EncAll, Live, OffsetOf, Indexed, Flat, Foot, Retold, Rewrote, Hashes, Parsed, Filling, Part, PullFrom, Packed;
    FillStart(Unpack(v.blocks[bno]), Unpack(v.blocks[next]), rs, qs);
    RetoldNone(Snap(v), Foot(loc) + {bno, next});
    RewroteNothing(Flat(tr), Hashes(h, Live(qs)));
    PartSelf(Live(qs));
  }

  lemma PartSelf(a: seq<Rec>)
    ensures Part(a, a)
  {
  }

  lemma FillHeads(x: NBlk, y: NBlk, rs: seq<Rec>, qs: seq<Rec>, ps: seq<Rec>, ts: seq<Rec>, k: nat, m: nat, n: nat,
                  pos: nat)
    requires Filling(x, y, rs, qs, ps, ts, k, m, n, pos)
    ensures Live(ts[..k]) == [] && k <= |ts|
  {
  }

  lemma FillCounts(x: NBlk, y: NBlk, rs: seq<Rec>, qs: seq<Rec>, ps: seq<Rec>, ts: seq<Rec>, k: nat, m: nat, n: nat,
                   pos: nat)
    requires Filling(x, y, rs, qs, ps, ts, k, m, n, pos)
    ensures m <= y.nrOfEntries && Parsed(x.(nrOfEntries := x.nrOfEntries + m), ps)
            && Parsed(y.(nrOfEntries := y.nrOfEntries - m), ts)
  {
  }

  // ------------------------------------------------------------ third phase

  /** Live records at different places have different hashes. */
  lemma LiveApart(h: Hash, rs: seq<Rec>, j: nat, k: nat)
    requires Distinguished(h, Live(rs)) && j < k < |rs| && IsLive(rs[j]) && IsLive(rs[k])
    ensures h(ItemOf(rs[j]).name) != h(ItemOf(rs[k]).name)
  {
    hide Live, ItemOf;
    LiveStep(rs, k);
    LiveStep(rs[..k], j);
    var a, b, i := Live(rs[..k][..j]), Live(rs[..k]), |Live(rs[..k][..j])|;
    assert rs[..k][j] == rs[j];
    assert b == a + [rs[j]] + Live(rs[..k][j + 1..]) && b[i] == rs[j];
    assert Live(rs)[i] == b[i] && Live(rs)[|b|] == rs[k];
  }

  /** All live records of rs before k are where the tree says. */
  ghost predicate ToldUpto(s: seq<Entry>, h: Hash, bno: nat, rs: seq<Rec>, k: nat) {
    forall j | 0 <= j < k && j < |rs| && IsLive(rs[j]) :: At(s, h(ItemOf(rs[j]).name), Place(bno, OffsetOf(rs, j)))
  }

  lemma ToldNext(s: seq<Entry>, h: Hash, bno: nat, rs: seq<Rec>, k: nat)
    requires k < |rs| && IsLive(rs[k]) && Distinguished(h, Live(rs)) && ToldUpto(s, h, bno, rs, k)
             && HasHash(s, h(ItemOf(rs[k]).name))
    ensures ToldUpto(SetPlaceIn(s, h(ItemOf(rs[k]).name), Place(bno, OffsetOf(rs, k))), h, bno, rs, k + 1)
  {
    hide OffsetOf, ItemOf, Live, At, HasHash;
    var x, p := h(ItemOf(rs[k]).name), Place(bno, OffsetOf(rs, k));
    AtSet(s, x, p);
    forall j | 0 <= j < k && IsLive(rs[j])
      ensures h(ItemOf(rs[j]).name) != x
    {
      LiveApart(h, rs, j, k);
    }
  }

  /** The loop of the third phase, from the beginning of the block and with its new number
      (the repair): afterwards every live record of the block is where the tree says. */
  method Reindex(v: Volume, root: nat, bno: nat, h: Hash, ghost loc: Loc, ghost tr: Tree, ghost ht: nat,
                 ghost rs: seq<Rec>)
    returns (ghost tr': Tree)
    requires Indexed(v.blocks, v.t, loc, tr, ht) && root == loc.bno && HoldsRecs(v.blocks, bno, rs)
    requires AllHave(Flat(tr), h, Live(rs)) && Distinguished(h, Live(rs))
    modifies v`blocks
    ensures Indexed(v.blocks, v.t, loc, tr', ht) && Rewrote(Flat(tr), Flat(tr'), Hashes(h, Live(rs)))
    ensures ToldUpto(Flat(tr'), h, bno, rs, |rs|) && HoldsRecs(v.blocks, bno, rs)
    ensures Retold(old(Snap(v)), Snap(v), Foot(loc))
  {
    hide EncAll, Live, OffsetOf, ItemOf, Indexed, Flat, Foot, Retold, Rewrote, AllHave, Hashes, Word, Parsed,
         SetPlaceIn, ToldUpto, Distinguished, HasHash;
    ghost var s, xs := Snap(v), Hashes(h, Live(rs));
    var x := Unpack(v.blocks[bno]);
    var i: int, pos: nat := 0, FIRST_RECORD;
    ghost var k: nat := 0;
    tr' := tr;
    ReindexStart(x, h, bno, rs, Flat(tr));
    RetoldNone(s, Foot(loc));
    RewroteNothing(Flat(tr), xs);
    while i < x.nrOfEntries
      invariant k <= |rs| && pos == OffsetOf(rs, k) && i == |Live(rs[..k])| <= |Live(rs)| == x.nrOfEntries
      invariant Indexed(v.blocks, v.t, loc, tr', ht) && Rewrote(Flat(tr), Flat(tr'), xs)
                && Retold(s, Snap(v), Foot(loc))
      invariant ToldUpto(Flat(tr'), h, bno, rs, k)
      invariant IsName(v.blocks, bno) && v.blocks[bno] == s.disk[bno]
      decreases |rs| - k
    {
      LiveLeft(rs, k);
      LiveStep(rs, k);
      ParsedRecord(x, rs, k);
      OffsetStep(rs, k);
      var ino, len := Word(x.data, pos), Word(x.data, pos + 4);
      if ino != 0 {
        var name := x.data[pos + RECORD_HDR..pos + RECORD_HDR + len];
        NameHash(rs[k]);
        assert Live(rs)[i] == rs[k];
        AllHaveOne(Flat(tr), h, Live(rs), rs[k]);
        RewroteHash(Flat(tr), Flat(tr'), xs, h(ItemOf(rs[k]).name));
        ghost var tr1, found := tr', true;
        found, tr' := TellIn(v, root, h(name[..len - 1]), Place(bno, pos), loc, tr', ht, s, Foot(loc));
        ToldNext(Flat(tr1), h, bno, rs, k);
        RewroteStep(Flat(tr), Flat(tr1), xs, h(name[..len - 1]), Place(bno, pos));
      } else {
        ToldTomb(Flat(tr'), h, bno, rs, k);
        i := i - 1;
      }
      i := i + 1;
      pos := pos + RECORD_HDR + len;
      k := k + 1;
    }
    ToldAll(Flat(tr'), h, bno, rs, k);
  }

  lemma ReindexStart(x: NBlk, h: Hash, bno: nat, rs: seq<Rec>, es: seq<Entry>)
    requires Parsed(x, rs)
    ensures x.nrOfEntries == |Live(rs)| && OffsetOf(rs, 0) == FIRST_RECORD && |Live(rs[..0])| == 0
            && ToldUpto(es, h, bno, rs, 0)
  {
    FirstOffset(rs);
    assert rs[..0] == [];
  }

  lemma ParsedRecord(x: NBlk, rs: seq<Rec>, k: nat)
    requires Parsed(x, rs) && k < |rs|
    ensures var o := OffsetOf(rs, k);
            && o + RECORD_HDR + |rs[k].name| <= |x.data| && WellSized(rs[k])
            && Word(x.data, o) == rs[k].ino && Word(x.data, o + 4) == |rs[k].name|
            && x.data[o + RECORD_HDR..o + RECORD_HDR + |rs[k].name|] == rs[k].name
  {
    hide Packed, Word, OffsetOf, EncAll, Live;
    PackedRecord(x.data, rs, k);
  }

  lemma ToldTomb(s: seq<Entry>, h: Hash, bno: nat, rs: seq<Rec>, k: nat)
    requires ToldUpto(s, h, bno, rs, k) && k < |rs| && !IsLive(rs[k])
    ensures ToldUpto(s, h, bno, rs, k + 1)
  {
  }

  /** Behind the last live record there is nothing to tell. */
  lemma ToldAll(s: seq<Entry>, h: Hash, bno: nat, rs: seq<Rec>, k: nat)
    requires ToldUpto(s, h, bno, rs, k) && k <= |rs| && |Live(rs[..k])| == |Live(rs)|
    ensures ToldUpto(s, h, bno, rs, |rs|)
  {
    hide OffsetOf, ItemOf, At, Live;
    assert rs[..k] + rs[k..] == rs;
    LiveAppend(rs[..k], rs[k..]);
    LiveNone(rs[k..]);
    forall j | k <= j < |rs|
      ensures !IsLive(rs[j])
    {
      assert rs[k..][j - k] == rs[j];
    }
  }
}
