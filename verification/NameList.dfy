/** The chain of name blocks of a directory (nametree.h): first-fit append, tombstone
    delete, listing. */
module NameList {
  import opened NameRecords
  import opened NameBlocks
  import opened Bitmap

  type Area = map<nat, NBlk>

  function NextOf(bnos: seq<nat>, i: nat): nat { if i + 1 < |bnos| then bnos[i + 1] else 0 }

  /** The chain bnos holds the records recs, block by block. */
  ghost predicate Listed(d: Area, bnos: seq<nat>, recs: seq<seq<Rec>>) {
    && |bnos| == |recs| >= 1 && NoRepeats(bnos)
    && forall i | 0 <= i < |bnos| :: Linked(d, bnos, recs, i)
  }

  ghost predicate NoRepeats(bnos: seq<nat>) { forall i, j | 0 <= i < j < |bnos| :: bnos[i] != bnos[j] }

  ghost predicate Linked(d: Area, bnos: seq<nat>, recs: seq<seq<Rec>>, i: nat)
    requires i < |bnos| && i < |recs|
  {
    bnos[i] != 0 && bnos[i] in d && d[bnos[i]].next == NextOf(bnos, i) && Parsed(d[bnos[i]], recs[i])
  }

  /** Every block but the first names the block before it. */
  ghost predicate BackLinked(d: Area, bnos: seq<nat>) {
    forall i | 0 < i < |bnos| :: bnos[i] in d && d[bnos[i]].prev == bnos[i - 1]
  }

  /** The test every insertion makes; len counts the NUL. */
  predicate HasRoom(startUnused: nat, len: nat) { BLOCK_SIZE - startUnused > len + RECORD_HDR }

  /** The first block of the chain with room, or the length of the chain. */
  function FirstWithRoom(recs: seq<seq<Rec>>, len: nat): (i: nat)
    ensures i <= |recs|
  {
    if recs == [] || HasRoom(OffsetOf(recs[0], |recs[0]|), len) then 0 else 1 + FirstWithRoom(recs[1..], len)
  }

  lemma {:induction false} FirstRoomIs(recs: seq<seq<Rec>>, len: nat, i: nat)
    requires i <= |recs| && (i < |recs| ==> HasRoom(OffsetOf(recs[i], |recs[i]|), len))
    requires forall j | 0 <= j < i :: !HasRoom(OffsetOf(recs[j], |recs[j]|), len)
    ensures FirstWithRoom(recs, len) == i
  {
    if i > 0 {
      FirstRoomIs(recs[1..], len, i - 1);
    }
  }

  /** In bytes: the block found is the first that has more than a record with a name of len bytes
      takes behind its records; if there is none, no block has more. */
  lemma {:induction false} RoomInBytes(recs: seq<seq<Rec>>, len: nat)
    ensures var i := FirstWithRoom(recs, len);
            && (forall j | 0 <= j < i :: BLOCK_SIZE <= OffsetOf(recs[j], |recs[j]|) + RECORD_HDR + len)
            && (i < |recs| ==> OffsetOf(recs[i], |recs[i]|) + RECORD_HDR + len < BLOCK_SIZE)
  {
    hide OffsetOf;
    if recs != [] {
      RoomInBytes(recs[1..], len);
      assert forall j | 0 < j < |recs| :: recs[j] == recs[1..][j - 1];
    }
  }

  /** The chain after a record has gone to block i. */
  function Placed(recs: seq<seq<Rec>>, i: nat, r: Rec): seq<seq<Rec>>
    requires i <= |recs|
  {
    if i < |recs| then recs[i := recs[i] + [r]] else recs + [[r]]
  }

  function PlacedBlocks(bnos: seq<nat>, i: nat, spare: nat): seq<nat> { if i < |bnos| then bnos else bnos + [spare] }

  datatype Outcome = Done | NoSpace | TooLong

  class Names {
    var blocks: Area

    constructor ()
      ensures blocks == map[]
    {
      blocks := map[];
    }

    /** basicbtfs_nametree_insert_name; spare is the block a full chain gets. */
    method InsertName(alloc: Allocator, nameBno: nat, ino: nat, name: seq<nat>, ghost bnos: seq<nat>,
                      ghost recs: seq<seq<Rec>>)
      returns (ret: Outcome, bno: nat, index: nat, grew: bool, ghost spare: nat)
      requires Listed(blocks, bnos, recs) && nameBno == bnos[0]
      requires 0 < ino < U32 && |name| + 1 < U32 && alloc.Valid() && forall b | b in bnos :: b in alloc.Used()
      modifies this, alloc, alloc.bits
      ensures alloc.Valid()
      ensures FirstWithRoom(recs, |name| + 1) < |recs| ==> ret.Done? && alloc.bits[..] == old(alloc.bits[..])
      ensures FirstWithRoom(recs, |name| + 1) == |recs| && old(alloc.Free()) == {} ==> ret.NoSpace?
      ensures FirstWithRoom(recs, |name| + 1) == |recs| && old(alloc.Free()) != {} ==>
                && (if HasRoom(FIRST_RECORD, |name| + 1) then ret.Done? else ret.TooLong?)
                && spare in old(alloc.Free()) && spare !in old(alloc.Used())
                && alloc.Used() == old(alloc.Used()) + {spare} && alloc.Free() == old(alloc.Free()) - {spare}
      ensures spare !in bnos && spare != 0 && (ret.Done? ==> (grew <==> FirstWithRoom(recs, |name| + 1) == |recs|))
      ensures ret.Done? ==> var i, r := FirstWithRoom(recs, |name| + 1), Rec(ino, name + [0]);
                && Listed(blocks, PlacedBlocks(bnos, i, spare), Placed(recs, i, r))
                && bno == PlacedBlocks(bnos, i, spare)[i]
                && index == if i < |recs| then OffsetOf(recs[i], |recs[i]|) else FIRST_RECORD
      ensures ret.Done? ==>
                (grew <==> forall j | 0 <= j < |bnos| ::
                             BLOCK_SIZE <= OffsetOf(recs[j], |recs[j]|) + RECORD_HDR + |name| + 1)
      ensures ret.Done? && BackLinked(old(blocks), bnos) ==>
                var i := FirstWithRoom(recs, |name| + 1);
                BackLinked(blocks, PlacedBlocks(bnos, i, spare)) <==> i < |bnos| || |bnos| == 1
      ensures forall b | b in old(blocks) && b !in bnos && b != spare :: b in blocks && blocks[b] == old(blocks)[b]
    {
      hide Parsed, OffsetOf, FirstWithRoom, SetBits, Took, TookAt, Gave, FreeBits, Range, ClearRun, FirstFit;
      var cur, prev := nameBno, nameBno;
      ghost var i: nat := 0;
      spare := Unlisted(bnos);
      var len := |name| + 1;
      RoomInBytes(recs, len);
      ParsedStart(blocks, bnos, recs, 0);
      while blocks[cur].next != 0 && !HasRoom(blocks[cur].startUnused, len)
        invariant blocks == old(blocks) && alloc.bits[..] == old(alloc.bits[..]) && alloc.Valid()
        invariant i < |bnos| && cur == bnos[i] && prev == (if i == 0 then bnos[0] else bnos[i - 1])
        invariant Linked(blocks, bnos, recs, i) && blocks[cur].startUnused == OffsetOf(recs[i], |recs[i]|)
        invariant forall j | 0 <= j < i :: !HasRoom(OffsetOf(recs[j], |recs[j]|), len)
        decreases |bnos| - i
      {
        prev := cur;
        cur := blocks[cur].next;
        i := i + 1;
        ParsedStart(blocks, bnos, recs, i);
      }
      if HasRoom(blocks[cur].startUnused, len) {
        FirstRoomIs(recs, len, i);
        bno, index := AppendTo(cur, ino, name, bnos, recs, i);
        return Done, bno, index, false, spare;
      }
      ChainEnds(blocks, bnos, recs, i);
      FirstRoomIs(recs, len, i + 1);
      bno := alloc.GetFreeBlocks(1);
      if bno == NO_BLOCK {
        blocks := blocks[cur := blocks[cur].(next := bno)];
        return NoSpace, 0, 0, false, spare;
      }
      spare := bno;
      grew := true;
      ret, index := NewBlock(cur, prev, bno, ino, name, bnos, recs);
    }

    /** The record goes to the end of block i of the chain. */
    method AppendTo(cur: nat, ino: nat, name: seq<nat>, ghost bnos: seq<nat>, ghost recs: seq<seq<Rec>>, ghost i: nat)
      returns (bno: nat, index: nat)
      requires Listed(blocks, bnos, recs) && i < |bnos| && cur == bnos[i] && 0 < ino < U32 && |name| + 1 < U32
      requires cur in blocks && HasRoom(blocks[cur].startUnused, |name| + 1)
      modifies this
      ensures bno == cur && index == OffsetOf(recs[i], |recs[i]|)
      ensures Listed(blocks, bnos, Placed(recs, i, Rec(ino, name + [0])))
      ensures BackLinked(blocks, bnos) <==> BackLinked(old(blocks), bnos)
      ensures forall b | b in old(blocks) && b !in bnos :: b in blocks && blocks[b] == old(blocks)[b]
    {
      hide Parsed, OffsetOf;
      ParsedStart(blocks, bnos, recs, i);
      ghost var d := blocks;
      bno := cur;
      var x;
      x, index := InsertEntry(blocks[cur], ino, name, recs[i]);
      blocks := blocks[cur := x];
      OneBlock(d, bnos, recs, i, x, recs[i] + [Rec(ino, name + [0])]);
    }

    /** No block has room: a new one is hung behind the last one, cur. */
    method NewBlock(cur: nat, prev: nat, spare: nat, ino: nat, name: seq<nat>, ghost bnos: seq<nat>,
                    ghost recs: seq<seq<Rec>>)
      returns (ret: Outcome, index: nat)
      requires Listed(blocks, bnos, recs) && cur == bnos[|bnos| - 1] && spare != 0 && spare !in bnos
      requires prev == if |bnos| == 1 then bnos[0] else bnos[|bnos| - 2]
      requires 0 < ino < U32 && |name| + 1 < U32
      modifies this
      ensures if HasRoom(FIRST_RECORD, |name| + 1) then ret.Done? else ret.TooLong?
      ensures ret.Done? ==> index == FIRST_RECORD && Listed(blocks, bnos + [spare], recs + [[Rec(ino, name + [0])]])
      ensures ret.Done? && BackLinked(old(blocks), bnos) ==> (BackLinked(blocks, bnos + [spare]) <==> |bnos| == 1)
      ensures forall b | b in old(blocks) && b !in bnos && b != spare :: b in blocks && blocks[b] == old(blocks)[b]
    {
      hide Parsed, OffsetOf;
      ghost var d := blocks;
      index := 0;
      ParsedStart(blocks, bnos, recs, |bnos| - 1);
      blocks := blocks[cur := blocks[cur].(next := spare)];
      var x := NBlk(false, prev, 0, 0, CAPACITY, BLOCK_SIZE - CAPACITY, seq(BLOCK_SIZE, _ => 0));
      blocks := blocks[spare := x];
      EmptyParsed(x);
      NoRecords();
      if !HasRoom(x.startUnused, |name| + 1) {
        return TooLong, 0;
      }
      x, index := InsertEntry(x, ino, name, []);
      blocks := blocks[spare := x];
      assert [] + [Rec(ino, name + [0])] == [Rec(ino, name + [0])];
      assert blocks == d[cur := d[cur].(next := spare)][spare := x];
      OneMore(d, bnos, recs, spare, x, [Rec(ino, name + [0])]);
      ret := Done;
    }

    /** basicbtfs_nametree_delete_name */
    method DeleteName(bno: nat, index: nat, ghost bnos: seq<nat>, ghost recs: seq<seq<Rec>>, ghost i: nat, ghost k: nat)
      requires Listed(blocks, bnos, recs) && i < |recs| && k < |recs[i]| && IsLive(recs[i][k])
      requires bno == bnos[i] && index == OffsetOf(recs[i], k)
      modifies this
      ensures Listed(blocks, bnos, recs[i := Tomb(recs[i], k)])
      ensures BackLinked(blocks, bnos) <==> BackLinked(old(blocks), bnos)
      ensures forall b | b in old(blocks) && b !in bnos :: b in blocks && blocks[b] == old(blocks)[b]
    {
      hide Parsed, OffsetOf;
      assert Linked(blocks, bnos, recs, i);
      ghost var d := blocks;
      var y := DeleteEntry(blocks[bno], index, recs[i], k);
      blocks := blocks[bno := y];
      OneBlock(d, bnos, recs, i, y, Tomb(recs[i], k));
    }

    /** basicbtfs_nametree_iterate_name: room is how many names the caller takes before it
        turns one down. */
    method Iterate(nameBno: nat, startPos: nat, room: nat, ghost bnos: seq<nat>, ghost recs: seq<seq<Rec>>)
      returns (out: seq<Item>)
      requires Listed(blocks, bnos, recs) && nameBno == bnos[0]
      ensures var all := Emitted(recs, startPos, 0); out == all[..if room < |all| then room else |all|]
      ensures startPos == 0 ==>
                var n := |AllLive(recs)|;
                |out| == (if room < n then room else n) && forall j | 0 <= j < |out| :: IsItem(out[j], AllLive(recs)[j])
    {
      hide Parsed, Live, Items, Listing, Linked;
      ParsedStart(blocks, bnos, recs, 0);
      var cur := nameBno;
      var total, full;
      out, total, full := EmitBlock(blocks[cur], startPos, 0, room, recs[0]);
      ghost var i: nat := 0;
      ListingStart(recs, startPos, room, out, total, full);
      while blocks[cur].next != 0 && !full
        invariant i < |bnos| && cur == bnos[i] && cur in blocks && Listing(recs, startPos, room, i, total, out, full)
        decreases |bnos| - i, !full
      {
        ListingRoom(recs, startPos, room, i, total, out, full);
        cur, i := NextBlock(cur, i, bnos, recs);
        var more;
        ghost var before, seen := out, total;
        more, total, full := EmitBlock(blocks[cur], startPos, total, room - |out|, recs[i]);
        out := out + more;
        ListingNext(recs, startPos, room, i, seen, before, more, total, full);
      }
      if !full {
        ChainEnds(blocks, bnos, recs, i);
      }
      ListingEnd(recs, startPos, room, i, total, out, full);
      ListedFromStart(recs, 0);
      ItemsOfChain(blocks, bnos, recs);
    }

    method NextBlock(cur: nat, ghost i: nat, ghost bnos: seq<nat>, ghost recs: seq<seq<Rec>>)
      returns (next: nat, ghost j: nat)
      requires Listed(blocks, bnos, recs) && i < |bnos| && cur == bnos[i] && cur in blocks && blocks[cur].next != 0
      ensures j == i + 1 < |bnos| && next == bnos[j] && next in blocks && Parsed(blocks[next], recs[j])
    {
      assert Linked(blocks, bnos, recs, i);
      next, j := blocks[cur].next, i + 1;
      assert Linked(blocks, bnos, recs, j);
    }
  }

  /** A listing that has passed block i: what is out, and what is still to come. */
  ghost predicate Listing(recs: seq<seq<Rec>>, startPos: nat, room: nat, i: nat, total: nat, out: seq<Item>,
                          full: bool) {
    && i < |recs| && total == Count(recs[..i + 1]) && |out| <= room
    && if full then room < |Emitted(recs, startPos, 0)| && out == Emitted(recs, startPos, 0)[..room]
       else Emitted(recs, startPos, 0) == out + Emitted(recs[i + 1..], startPos, total)
  }

  /** What EmitBlock promises about one block. */
  ghost predicate OneListed(rs: seq<Rec>, startPos: nat, total: nat, room: nat, out: seq<Item>, total': nat,
                            full: bool) {
    && total' == total + |Live(rs)|
    && (startPos >= total' ==> out == [] && !full)
    && (startPos < total' ==>
          && (full <==> room < |Live(rs)|)
          && out == Items(Live(rs))[..if room < |Live(rs)| then room else |Live(rs)|])
  }

  lemma OneListedCut(rs: seq<Rec>, startPos: nat, total: nat, room: nat, out: seq<Item>, total': nat, full: bool)
    requires OneListed(rs, startPos, total, room, out, total', full)
    ensures |out| <= room && out <= EmittedOne(rs, startPos, total)
    ensures if full then |out| == room < |EmittedOne(rs, startPos, total)| else out == EmittedOne(rs, startPos, total)
  {
    hide Live;
  }

  lemma ListingStart(recs: seq<seq<Rec>>, startPos: nat, room: nat, out: seq<Item>, total: nat, full: bool)
    requires recs != [] && OneListed(recs[0], startPos, 0, room, out, total, full)
    ensures Listing(recs, startPos, room, 0, total, out, full)
  {
    hide Live, Emitted, EmittedOne, OneListed, Count;
    assert recs[..0] == [];
    CountNone();
    OneListedCut(recs[0], startPos, 0, room, out, total, full);
    EmittedNext(recs, startPos, 0, 0);
    assert total == |Live(recs[0])| by { OneListedCount(recs[0], startPos, 0, room, out, total, full); }
    Cut(Emitted(recs, startPos, 0), [], EmittedOne(recs[0], startPos, 0), out, room, full);
  }

  lemma CountNone()
    ensures Count([]) == 0
  {
  }

  lemma OneListedCount(rs: seq<Rec>, startPos: nat, total: nat, room: nat, out: seq<Item>, total': nat, full: bool)
    requires OneListed(rs, startPos, total, room, out, total', full)
    ensures total' == total + |Live(rs)|
  {
  }

  lemma ListingRoom(recs: seq<seq<Rec>>, startPos: nat, room: nat, i: nat, total: nat, out: seq<Item>, full: bool)
    requires Listing(recs, startPos, room, i, total, out, full)
    ensures |out| <= room
  {
  }

  lemma ListingNext(recs: seq<seq<Rec>>, startPos: nat, room: nat, i: nat, total: nat, out: seq<Item>, more: seq<Item>,
                    total': nat, full: bool)
    requires 0 < i < |recs| && Listing(recs, startPos, room, i - 1, total, out, false)
    requires |out| <= room && OneListed(recs[i], startPos, total, room - |out|, more, total', full)
    ensures Listing(recs, startPos, room, i, total', out + more, full)
  {
    hide Live, Emitted, EmittedOne, OneListed, Count;
    OneListedCut(recs[i], startPos, total, room - |out|, more, total', full);
    OneListedCount(recs[i], startPos, total, room - |out|, more, total', full);
    EmittedNext(recs, startPos, total, i);
    assert out + (EmittedOne(recs[i], startPos, total) + Emitted(recs[i + 1..], startPos, total'))
           == (out + EmittedOne(recs[i], startPos, total)) + Emitted(recs[i + 1..], startPos, total');
    Cut(Emitted(recs, startPos, 0), out, EmittedOne(recs[i], startPos, total), more, room, full);
  }

  lemma ListingEnd(recs: seq<seq<Rec>>, startPos: nat, room: nat, i: nat, total: nat, out: seq<Item>, full: bool)
    requires Listing(recs, startPos, room, i, total, out, full) && (!full ==> i == |recs| - 1)
    ensures var all := Emitted(recs, startPos, 0); out == all[..if room < |all| then room else |all|]
  {
    hide Live, EmittedOne, Count;
    if !full {
      assert recs[i + 1..] == [];
      assert Emitted(recs[i + 1..], startPos, total) == [];
      assert out + [] == out;
    }
  }

  /** Some block number outside the chain. */
  ghost function Unlisted(bnos: seq<nat>): (b: nat)
    ensures b !in bnos && b != 0
  {
    1 + MaxOf(bnos)
  }

  function MaxOf(s: seq<nat>): (m: nat)
    ensures forall i | 0 <= i < |s| :: s[i] <= m
  {
    if s == [] then 0 else var m := MaxOf(s[1..]); if s[0] > m then s[0] else m
  }

  lemma NoRecords()
    ensures OffsetOf([], 0) == FIRST_RECORD
  {
    var none: seq<Rec> := [];
    assert none[..0] == [];
  }

  /** A block without a successor is the last one. */
  lemma ChainEnds(d: Area, bnos: seq<nat>, recs: seq<seq<Rec>>, i: nat)
    requires Listed(d, bnos, recs) && i < |bnos| && bnos[i] in d && d[bnos[i]].next == 0
    ensures i == |bnos| - 1
  {
    hide Parsed;
    assert forall j | 0 <= j < |bnos| :: Linked(d, bnos, recs, j) && bnos[j] != 0;
    assert Linked(d, bnos, recs, i);
  }

  lemma ParsedStart(d: Area, bnos: seq<nat>, recs: seq<seq<Rec>>, i: nat)
    requires Listed(d, bnos, recs) && i < |bnos|
    ensures Linked(d, bnos, recs, i) && d[bnos[i]].startUnused == OffsetOf(recs[i], |recs[i]|)
  {
  }

  /** Rewriting one block of the chain without touching its links. */
  lemma OneBlock(d: Area, bnos: seq<nat>, recs: seq<seq<Rec>>, i: nat, x: NBlk, rs: seq<Rec>)
    requires Listed(d, bnos, recs) && i < |bnos| && Parsed(x, rs)
    requires bnos[i] in d && x.next == d[bnos[i]].next && x.prev == d[bnos[i]].prev
    ensures Listed(d[bnos[i] := x], bnos, recs[i := rs])
    ensures BackLinked(d[bnos[i] := x], bnos) <==> BackLinked(d, bnos)
  {
    hide Parsed;
    var e, qs := d[bnos[i] := x], recs[i := rs];
    forall j | 0 <= j < |bnos|
      ensures Linked(e, bnos, qs, j)
    {
      assert Linked(d, bnos, recs, j);
    }
  }

  /** Hanging a new block behind the last one. Its prev field is the block before the last,
      so the back links are right only in a chain of one. */
  lemma OneMore(d: Area, bnos: seq<nat>, recs: seq<seq<Rec>>, spare: nat, x: NBlk, rs: seq<Rec>)
    requires Listed(d, bnos, recs) && spare != 0 && spare !in bnos && Parsed(x, rs) && x.next == 0
    requires x.prev == if |bnos| == 1 then bnos[0] else bnos[|bnos| - 2]
    requires bnos[|bnos| - 1] in d
    ensures var e := d[bnos[|bnos| - 1] := d[bnos[|bnos| - 1]].(next := spare)][spare := x];
            && Listed(e, bnos + [spare], recs + [rs])
            && (BackLinked(d, bnos) ==> (BackLinked(e, bnos + [spare]) <==> |bnos| == 1))
  {
    hide Parsed;
    var n := |bnos| - 1;
    var e := d[bnos[n] := d[bnos[n]].(next := spare)][spare := x];
    var cs, qs := bnos + [spare], recs + [rs];
    forall j | 0 <= j < |cs|
      ensures Linked(e, cs, qs, j)
    {
      if j < |bnos| {
        assert Linked(d, bnos, recs, j);
        SameRecords(d[bnos[j]], recs[j], spare);
      }
    }
    if BackLinked(d, bnos) {
      assert e[cs[n + 1]].prev == x.prev && cs[n] == bnos[n];
      if |bnos| > 1 {
        assert bnos[n - 1] != bnos[n];
      }
    }
  }

  lemma SameRecords(x: NBlk, rs: seq<Rec>, next: nat)
    requires Parsed(x, rs)
    ensures Parsed(x.(next := next), rs)
  {
  }

  // -------------------------------------------------------------- listing

  function AllLive(recs: seq<seq<Rec>>): seq<Rec> {
    if recs == [] then [] else Live(recs[0]) + AllLive(recs[1..])
  }

  function Count(recs: seq<seq<Rec>>): nat {
    if recs == [] then 0 else |Live(recs[0])| + Count(recs[1..])
  }

  function EmittedOne(rs: seq<Rec>, startPos: nat, total: nat): seq<Item> {
    if startPos < total + |Live(rs)| then Items(Live(rs)) else []
  }

  /** What a listing from position startPos hands out: a block is listed from its beginning
      or not at all. */
  function Emitted(recs: seq<seq<Rec>>, startPos: nat, total: nat): seq<Item> {
    if recs == [] then [] else
      EmittedOne(recs[0], startPos, total) + Emitted(recs[1..], startPos, total + |Live(recs[0])|)
  }

  lemma EmittedNext(recs: seq<seq<Rec>>, startPos: nat, total: nat, i: nat)
    requires i < |recs| && total == Count(recs[..i])
    ensures Emitted(recs[i..], startPos, total)
            == EmittedOne(recs[i], startPos, total) + Emitted(recs[i + 1..], startPos, total + |Live(recs[i])|)
    ensures Count(recs[..i + 1]) == total + |Live(recs[i])| && recs[0..] == recs
  {
    hide Live, EmittedOne;
    assert recs[i..][0] == recs[i] && recs[i..][1..] == recs[i + 1..];
    CountStep(recs, i);
  }

  lemma {:induction false} CountStep(recs: seq<seq<Rec>>, i: nat)
    requires i < |recs|
    ensures Count(recs[..i + 1]) == Count(recs[..i]) + |Live(recs[i])|
  {
    hide Live;
    if i > 0 {
      assert recs[..i + 1][1..] == recs[1..][..i] && recs[..i][1..] == recs[1..][..i - 1];
      CountStep(recs[1..], i - 1);
    } else {
      assert recs[..1][1..] == [] && recs[..0] == [];
    }
  }

  lemma Cut(all: seq<Item>, before: seq<Item>, one: seq<Item>, more: seq<Item>, room: nat, full: bool)
    requires before + one <= all && |before| <= room && more <= one
    requires full ==> |more| == room - |before| < |one|
    requires !full ==> more == one
    ensures full ==> room < |all| && all[..room] == before + more
  {
    if full {
      assert all[..|before + one|] == before + one;
      assert all[..room] == (before + one)[..room];
    }
  }

  /** The records of one block among those of the list. */
  lemma {:induction false} LiveOfBlock(recs: seq<seq<Rec>>, i: nat)
    requires i < |recs|
    ensures AllLive(recs) == AllLive(recs[..i]) + Live(recs[i]) + AllLive(recs[i + 1..])
  {
    hide Live;
    if i == 0 {
      assert recs[..0] == [] && AllLive(recs[..0]) == [];
    } else {
      LiveOfBlock(recs[1..], i - 1);
      assert recs[1..][..i - 1] == recs[..i][1..] && recs[1..][i..] == recs[i + 1..] && recs[..i][0] == recs[0];
      LiveGroups(Live(recs[0]), AllLive(recs[..i][1..]), Live(recs[i]), AllLive(recs[i + 1..]));
    }
  }

  lemma LiveGroups(a: seq<Rec>, b: seq<Rec>, c: seq<Rec>, d: seq<Rec>)
    ensures a + (b + c + d) == (a + b) + c + d
  {
  }

  lemma {:induction false} CountAll(recs: seq<seq<Rec>>)
    ensures |AllLive(recs)| == Count(recs)
  {
    if recs != [] {
      CountAll(recs[1..]);
    }
  }

  /** From position 0 every live record is handed out once, in chain order. */
  lemma {:induction false} ListedFromStart(recs: seq<seq<Rec>>, total: nat)
    ensures Emitted(recs, 0, total) == Items(AllLive(recs))
  {
    if recs != [] {
      ListedFromStart(recs[1..], total + |Live(recs[0])|);
      ItemsAppend(Live(recs[0]), AllLive(recs[1..]));
    }
  }

  /** Every live record of the chain is handed out as it is. */
  lemma {:induction false} ItemsOfAll(recs: seq<seq<Rec>>)
    requires forall i | 0 <= i < |recs| :: Sized(recs[i])
    ensures |Items(AllLive(recs))| == |AllLive(recs)|
            && forall j | 0 <= j < |AllLive(recs)| :: IsItem(Items(AllLive(recs))[j], AllLive(recs)[j])
  {
    hide Live;
    if recs != [] {
      ItemsOfAll(recs[1..]);
      LiveSized(recs[0]);
      var a, b := Live(recs[0]), AllLive(recs[1..]);
      ItemsAppend(a, b);
      forall j | 0 <= j < |a + b|
        ensures IsItem(Items(a + b)[j], (a + b)[j])
      {
        if j < |a| { assert a[j] in a; } else { assert IsItem(Items(b)[j - |a|], b[j - |a|]); }
      }
    }
  }

  lemma ItemsOfChain(d: Area, bnos: seq<nat>, recs: seq<seq<Rec>>)
    requires Listed(d, bnos, recs)
    ensures |Items(AllLive(recs))| == |AllLive(recs)|
            && forall j | 0 <= j < |AllLive(recs)| :: IsItem(Items(AllLive(recs))[j], AllLive(recs)[j])
  {
    hide AllLive, Items, Live, EncAll, OffsetOf;
    forall i | 0 <= i < |recs|
      ensures Sized(recs[i])
    {
      assert Linked(d, bnos, recs, i);
    }
    ItemsOfAll(recs);
  }

  lemma ItemsAppend(a: seq<Rec>, b: seq<Rec>)
    ensures Items(a + b) == Items(a) + Items(b)
  {
  }

  /** Position q is where a block begins. */
  predicate Boundary(recs: seq<seq<Rec>>, q: nat) {
    q == 0 || (recs != [] && |Live(recs[0])| <= q && Boundary(recs[1..], q - |Live(recs[0])|))
  }

  /** A listing resumed at position p continues where the last one stopped exactly when p is
      where a block begins; otherwise the beginning of that block is handed out again. */
  lemma {:induction false} ResumeExact(recs: seq<seq<Rec>>, p: nat, total: nat)
    requires total <= p <= total + |AllLive(recs)|
    ensures Emitted(recs, p, total) == Items(AllLive(recs))[p - total..] <==> Boundary(recs, p - total)
  {
    hide Live, Items, Emitted, Boundary;
    if recs == [] {
      NothingEmitted(p, total);
    } else {
      var l, rest := Live(recs[0]), AllLive(recs[1..]);
      ItemsAppend(l, rest);
      EmittedHead(recs, p, total);
      if p < total + |l| {
        EmittedPast(recs[1..], p, total + |l|);
        WholeOrTail(Items(l) + Items(rest), p - total);
      } else {
        ResumeExact(recs[1..], p, total + |l|);
        TailOfTail(Items(l), Items(rest), p - total);
      }
    }
  }

  lemma NothingEmitted(p: nat, total: nat)
    ensures Emitted([], p, total) == [] && Boundary([], 0)
  {
  }

  lemma EmittedHead(recs: seq<seq<Rec>>, p: nat, total: nat)
    requires recs != [] && total <= p
    ensures var n := |Live(recs[0])|;
            && (p < total + n ==> Emitted(recs, p, total) == Items(Live(recs[0])) + Emitted(recs[1..], p, total + n)
                                  && (Boundary(recs, p - total) <==> p == total))
            && (p >= total + n ==> Emitted(recs, p, total) == Emitted(recs[1..], p, total + n)
                                   && (Boundary(recs, p - total) <==> Boundary(recs[1..], p - total - n)))
  {
  }

  lemma TailOfTail(a: seq<Item>, b: seq<Item>, k: nat)
    requires |a| <= k <= |a| + |b|
    ensures (a + b)[k..] == b[k - |a|..]
  {
  }

  lemma WholeOrTail(s: seq<Item>, k: nat)
    requires k <= |s|
    ensures s == s[k..] <==> k == 0
  {
    assert |s[k..]| == |s| - k;
  }

  /** Once the position is passed everything is handed out. */
  lemma {:induction false} EmittedPast(recs: seq<seq<Rec>>, p: nat, total: nat)
    requires p < total
    ensures Emitted(recs, p, total) == Items(AllLive(recs))
  {
    if recs != [] {
      EmittedPast(recs[1..], p, total + |Live(recs[0])|);
      ItemsAppend(Live(recs[0]), AllLive(recs[1..]));
    }
  }
}
