/** One block of a name list (nametree.h): records are appended at the end of the used part,
    deleted by writing inode 0, skipped when the block is listed, and squeezed out by the
    defragmenter. */
module NameBlocks {
  import opened Bitmap
  import opened NameRecords

  /** basicbtfs_name_list_hdr and the whole block's bytes. */
  datatype NBlk = NBlk(first: bool, prev: nat, next: nat, nrOfEntries: nat, freeBytes: nat, startUnused: nat,
                       data: seq<nat>)

  const CAPACITY := BLOCK_SIZE - FIRST_RECORD

  /** The used bytes are the records rs and nothing else, and the counters tell the truth. */
  ghost predicate Parsed(x: NBlk, rs: seq<Rec>) {
    && Packed(x.data, rs) && x.startUnused == OffsetOf(rs, |rs|)
    && x.nrOfEntries == |Live(rs)| && x.freeBytes == CAPACITY - |EncAll(Live(rs))|
  }

  ghost predicate Packed(d: seq<nat>, rs: seq<Rec>) {
    && |d| == BLOCK_SIZE && OffsetOf(rs, |rs|) <= BLOCK_SIZE && (forall r | r in rs :: WellSized(r))
    && d[FIRST_RECORD..OffsetOf(rs, |rs|)] == EncAll(rs)
  }

  /** A block holds only one list of records. */
  lemma ParsedOnce(x: NBlk, rs: seq<Rec>, qs: seq<Rec>)
    requires Parsed(x, rs) && Parsed(x, qs)
    ensures rs == qs
  {
    hide EncAll, Parse;
    ParseEnc(rs);
    ParseEnc(qs);
  }

  /** A freshly written header with no records. */
  lemma EmptyParsed(x: NBlk)
    requires |x.data| == BLOCK_SIZE && x.startUnused == FIRST_RECORD && x.nrOfEntries == 0 && x.freeBytes == CAPACITY
    ensures Parsed(x, [])
  {
  }

  lemma {:induction false} LiveSize(rs: seq<Rec>)
    ensures |EncAll(Live(rs))| <= |EncAll(rs)|
  {
    if rs != [] {
      LiveSize(rs[1..]);
      if IsLive(rs[0]) {
        assert Live(rs)[1..] == Live(rs[1..]);
      } else {
        assert Live(rs) == Live(rs[1..]);
      }
    }
  }

  /** Bytes from `at` on replaced by s. */
  function Splice(d: seq<nat>, at: nat, s: seq<nat>): (r: seq<nat>)
    requires at + |s| <= |d|
    ensures |r| == |d|
  {
    d[..at] + s + d[at + |s|..]
  }

  // ---------------------------------------------------------------- append

  lemma PackedAppend(d: seq<nat>, rs: seq<Rec>, r: Rec)
    requires Packed(d, rs) && WellSized(r) && OffsetOf(rs, |rs|) + RECORD_HDR + |r.name| <= BLOCK_SIZE
    ensures Packed(Splice(d, OffsetOf(rs, |rs|), Enc(r)), rs + [r])
    ensures OffsetOf(rs + [r], |rs| + 1) == OffsetOf(rs, |rs|) + RECORD_HDR + |r.name|
  {
    hide EncAll, Enc;
    var qs := rs + [r];
    assert rs[..|rs|] == rs && qs[..|rs| + 1] == qs;
    EncAppend(rs, [r]);
    EncOne(r);
    var o, e := Splice(d, OffsetOf(rs, |rs|), Enc(r)), OffsetOf(rs, |rs|);
    assert o[FIRST_RECORD..e + |Enc(r)|] == d[FIRST_RECORD..e] + Enc(r);
  }

  /** Writes the n bytes of s, one after the other. */
  method CopyBytes(d: seq<nat>, at: nat, s: seq<nat>) returns (r: seq<nat>)
    requires at + |s| <= |d|
    ensures r == Splice(d, at, s)
  {
    r := d;
    for i := 0 to |s|
      invariant |r| == |d| && r == d[..at] + s[..i] + d[at + i..]
    {
      r := r[at + i := s[i]];
      assert s[..i + 1] == s[..i] + [s[i]];
    }
    assert s[..|s|] == s;
  }

  /** A live record more at the end of the used part. */
  lemma Appended(x: NBlk, rs: seq<Rec>, r: Rec)
    requires Parsed(x, rs) && WellSized(r) && IsLive(r) && x.startUnused + RECORD_HDR + |r.name| <= BLOCK_SIZE
    ensures var size := RECORD_HDR + |r.name|;
            && size <= x.freeBytes && x.startUnused + size <= |x.data|
            && Parsed(x.(data := Splice(x.data, x.startUnused, Enc(r)), freeBytes := x.freeBytes - size,
                         startUnused := x.startUnused + size, nrOfEntries := x.nrOfEntries + 1), rs + [r])
  {
    hide EncAll, Enc, Live, Splice;
    PackedAppend(x.data, rs, r);
    LiveAppend(rs, [r]);
    LiveOne(r);
    EncAppend(Live(rs), [r]);
    EncOne(r);
    LiveSize(rs);
    assert rs[..|rs|] == rs;
  }

  /** The whole record, written field by field, is its encoding. */
  lemma SpliceRecord(d: seq<nat>, at: nat, ino: nat, s: seq<nat>)
    requires at + RECORD_HDR + |s| <= |d|
    ensures Splice(Splice(Splice(d, at, Le32(ino)), at + 4, Le32(|s|)), at + RECORD_HDR, s)
              == Splice(d, at, Enc(Rec(ino, s)))
  {
  }

  /** basicbtfs_nametree_insert_entry_in_list, for a block with room; gives the offset that
      goes into the directory entry. */
  method InsertEntry(x: NBlk, ino: nat, name: seq<nat>, ghost rs: seq<Rec>) returns (y: NBlk, index: nat)
    requires Parsed(x, rs) && 0 < ino < U32 && |name| + 1 < U32
    requires x.startUnused + RECORD_HDR + |name| + 1 <= BLOCK_SIZE
    ensures Parsed(y, rs + [Rec(ino, name + [0])]) && index == OffsetOf(rs, |rs|)
    ensures y.first == x.first && y.prev == x.prev && y.next == x.next
  {
    hide EncAll, Enc, Live, Le32, Splice;
    index := x.startUnused;
    var size := RECORD_HDR + |name| + 1;
    var d := CopyBytes(x.data, index, Le32(ino));
    d := CopyBytes(d, index + 4, Le32(|name| + 1));
    d := CopyBytes(d, index + RECORD_HDR, name + [0]);
    SpliceRecord(x.data, index, ino, name + [0]);
    Appended(x, rs, Rec(ino, name + [0]));
    y := x.(data := d, freeBytes := x.freeBytes - size, startUnused := x.startUnused + size,
            nrOfEntries := x.nrOfEntries + 1);
  }

  // ---------------------------------------------------------------- delete

  function Tomb(rs: seq<Rec>, k: nat): (r: seq<Rec>)
    requires k < |rs|
    ensures |r| == |rs|
  {
    rs[k := rs[k].(ino := 0)]
  }

  lemma PackedTomb(d: seq<nat>, rs: seq<Rec>, k: nat)
    requires Packed(d, rs) && k < |rs|
    ensures OffsetOf(rs, k) + RECORD_HDR <= |d| && Packed(Splice(d, OffsetOf(rs, k), Le32(0)), Tomb(rs, k))
    ensures forall j | 0 <= j <= |rs| :: OffsetOf(Tomb(rs, k), j) == OffsetOf(rs, j)
  {
    hide EncAll, Enc, OffsetOf;
    var qs, o, e := Tomb(rs, k), OffsetOf(rs, k), OffsetOf(rs, |rs|);
    RecordAt(d, rs, k);
    forall j | 0 <= j <= |rs|
      ensures OffsetOf(qs, j) == OffsetOf(rs, j)
    {
      OffsetTomb(rs, k, j);
    }
    TombBytes(d, rs, k);
  }

  lemma TombBytes(d: seq<nat>, rs: seq<Rec>, k: nat)
    requires Packed(d, rs) && k < |rs| && OffsetOf(rs, k) + RECORD_HDR <= OffsetOf(rs, |rs|)
    ensures Splice(d, OffsetOf(rs, k), Le32(0))[FIRST_RECORD..OffsetOf(rs, |rs|)] == EncAll(Tomb(rs, k))
  {
    hide EncAll, Le32;
    var qs, o, e := Tomb(rs, k), OffsetOf(rs, k), OffsetOf(rs, |rs|);
    OffsetStep(rs, k);
    OffsetStep(qs, k);
    assert qs[..k] == rs[..k] && qs[k + 1..] == rs[k + 1..];
    var a, b := EncAll(rs[..k]), EncAll(rs[k + 1..]);
    var tail := Le32(|rs[k].name|) + rs[k].name + b;
    assert EncAll(rs) == a + Le32(rs[k].ino) + tail;
    assert EncAll(qs) == a + Le32(0) + tail;
    assert e == FIRST_RECORD + |EncAll(rs)| by { assert rs[..|rs|] == rs; }
    SpliceInside(d, FIRST_RECORD, e, a, Le32(rs[k].ino), Le32(0), tail);
  }

  lemma SpliceInside(d: seq<nat>, from: nat, to: nat, a: seq<nat>, m: seq<nat>, n: seq<nat>, b: seq<nat>)
    requires from <= to <= |d| && d[from..to] == a + m + b && |m| == |n|
    ensures Splice(d, from + |a|, n)[from..to] == a + n + b
  {
    var l := d[from..to];
    assert l[..|a|] == a && l[|a| + |m|..] == b;
    assert d[from..from + |a|] == a && d[from + |a| + |m|..to] == b;
  }

  /** A live record less. */
  lemma Tombed(x: NBlk, rs: seq<Rec>, k: nat)
    requires Parsed(x, rs) && k < |rs| && IsLive(rs[k])
    ensures var o := OffsetOf(rs, k);
            && o + RECORD_HDR <= |x.data| && 0 < x.nrOfEntries
            && Parsed(x.(data := Splice(x.data, o, Le32(0)), freeBytes := x.freeBytes + RECORD_HDR + |rs[k].name|,
                         nrOfEntries := x.nrOfEntries - 1), Tomb(rs, k))
  {
    hide EncAll, Enc, Live, Le32, Splice, OffsetOf;
    PackedTomb(x.data, rs, k);
    TombCounts(rs, k);
  }

  /** basicbtfs_nametree_delete_name: the record at offset index becomes a tombstone. */
  method DeleteEntry(x: NBlk, index: nat, ghost rs: seq<Rec>, ghost k: nat) returns (y: NBlk)
    requires Parsed(x, rs) && k < |rs| && IsLive(rs[k]) && index == OffsetOf(rs, k)
    ensures Parsed(y, Tomb(rs, k))
    ensures y.first == x.first && y.prev == x.prev && y.next == x.next
  {
    hide EncAll, Enc, Live, Le32, Splice, OffsetOf;
    RecordAt(x.data, rs, k);
    var nameLength := Word(x.data, index + 4);
    var d := CopyBytes(x.data, index, Le32(0));
    Tombed(x, rs, k);
    y := x.(data := d, freeBytes := x.freeBytes + RECORD_HDR + nameLength, nrOfEntries := x.nrOfEntries - 1);
  }

  lemma TombCounts(rs: seq<Rec>, k: nat)
    requires k < |rs| && IsLive(rs[k])
    ensures |Live(rs)| == |Live(Tomb(rs, k))| + 1
    ensures |EncAll(Live(rs))| == |EncAll(Live(Tomb(rs, k)))| + RECORD_HDR + |rs[k].name|
  {
    hide EncAll, Live;
    var qs := Tomb(rs, k);
    LiveStep(rs, k);
    LiveStep(qs, k);
    assert qs[..k] == rs[..k] && qs[k + 1..] == rs[k + 1..];
    var a, b := Live(rs[..k]), Live(rs[k + 1..]);
    EncAppend(a + [rs[k]], b);
    EncAppend(a, [rs[k]]);
    EncAppend(a, b);
    EncOne(rs[k]);
    assert a + [] + b == a + b;
  }

  // ------------------------------------------------------------------ list

  /** A name as handed to the caller, without the NUL. */
  datatype Item = Item(ino: nat, name: seq<nat>)

  function ItemOf(r: Rec): Item { Item(r.ino, if r.name == [] then [] else r.name[..|r.name| - 1]) }

  function Items(rs: seq<Rec>): (r: seq<Item>)
    ensures |r| == |rs| && forall i | 0 <= i < |rs| :: r[i] == ItemOf(rs[i])
  {
    seq(|rs|, i requires 0 <= i < |rs| => ItemOf(rs[i]))
  }

  /** The item hands out the record: its inode, and its name but for the last byte. */
  predicate IsItem(it: Item, r: Rec) {
    it.ino == r.ino && |r.name| == |it.name| + 1 && r.name[..|it.name|] == it.name
  }

  ghost predicate Sized(rs: seq<Rec>) { forall r | r in rs :: WellSized(r) }

  lemma {:induction false} LiveSized(rs: seq<Rec>)
    requires Sized(rs)
    ensures Sized(Live(rs))
  {
    if rs != [] {
      assert forall r | r in rs[1..] :: r in rs;
      LiveSized(rs[1..]);
    }
  }

  /** Items are made of live records so. */
  lemma LiveItems(x: NBlk, rs: seq<Rec>)
    requires Parsed(x, rs)
    ensures forall j | 0 <= j < |Live(rs)| :: IsItem(Items(Live(rs))[j], Live(rs)[j])
  {
    hide EncAll, Live, OffsetOf;
    LiveSized(rs);
    assert forall j | 0 <= j < |Live(rs)| :: Live(rs)[j] in Live(rs);
  }

  /** basicbtfs_nametree_emit_block: the counter steps back on tombstones, so the loop ends
      after the last live record. room is how many more names the caller can take. */
  method EmitBlock(x: NBlk, startPos: nat, total: nat, room: nat, ghost rs: seq<Rec>)
    returns (out: seq<Item>, total': nat, full: bool)
    requires Parsed(x, rs)
    ensures total' == total + |Live(rs)|
    ensures startPos >= total' ==> out == [] && !full
    ensures startPos < total' ==> (full <==> room < |Live(rs)|)
    ensures startPos < total' ==> out == Items(Live(rs))[..if full then room else |Live(rs)|]
    ensures |out| <= |Live(rs)| && forall j | 0 <= j < |out| :: IsItem(out[j], Live(rs)[j])
  {
    hide EncAll, Live, OffsetOf, IsItem;
    LiveItems(x, rs);
    out, full := [], false;
    total' := total + x.nrOfEntries;
    assert rs[..0] == [] && rs[..|rs|] == rs;
    FirstOffset(rs);
    var i, block := 0, FIRST_RECORD;
    ghost var k := 0;
    if startPos < total' {
      while i < x.nrOfEntries
        invariant k <= |rs| && block == OffsetOf(rs, k) && i == |Live(rs[..k])| && i <= |Live(rs)|
        invariant Items(Live(rs))[..i] == out && |out| == i <= room
        decreases |rs| - k
      {
        LiveLeft(rs, k);
        LiveStep(rs, k);
        RecordAt(x.data, rs, k);
        var ino, len := Word(x.data, block), Word(x.data, block + 4);
        if ino != 0 {
          if |out| == room {
            return out, total', true;
          }
          out := out + [Item(ino, x.data[block + RECORD_HDR..block + RECORD_HDR + len - 1])];
          NameOf(x.data, block + RECORD_HDR, len, rs[k]);
          assert Live(rs)[i] == rs[k];
        } else {
          i := i - 1;
        }
        i := i + 1;
        block := block + RECORD_HDR + len;
        k := k + 1;
      }
      assert Items(Live(rs))[..|Live(rs)|] == Items(Live(rs));
    }
  }

  lemma FirstOffset(rs: seq<Rec>)
    ensures OffsetOf(rs, 0) == FIRST_RECORD && Live([]) == []
  {
    assert rs[..0] == [];
  }

  /** As long as not all live records are behind, there are records ahead. */
  lemma LiveLeft(rs: seq<Rec>, k: nat)
    requires k <= |rs| && |Live(rs[..k])| < |Live(rs)|
    ensures k < |rs|
  {
    assert rs[..|rs|] == rs;
  }

  lemma NameOf(d: seq<nat>, at: nat, len: nat, r: Rec)
    requires at + len <= |d| && 1 <= len == |r.name| && d[at..at + len] == r.name
    ensures d[at..at + len - 1] == ItemOf(r).name
  {
    assert d[at..at + len][..len - 1] == d[at..at + len - 1];
  }
}
