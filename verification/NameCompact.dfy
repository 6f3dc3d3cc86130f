/** The first phase of basicbtfs_defrag_nametree_block, on records and bytes: squeezing the
    tombstones out of a name block. */
module NameCompact {
  import opened NameRecords
  import opened NameBlocks

  /** What is left: tombstones behind the last live record stay. */
  function Squeeze(rs: seq<Rec>): (q: seq<Rec>) {
    if Live(rs) == [] then rs
    else if IsLive(rs[0]) then [rs[0]] + Squeeze(rs[1..]) else Squeeze(rs[1..])
  }

  /** No live record is lost, added or moved past another one. */
  lemma {:induction false} SqueezeLive(rs: seq<Rec>)
    ensures Live(Squeeze(rs)) == Live(rs)
    ensures |Live(rs)| <= |Squeeze(rs)| && Squeeze(rs)[..|Live(rs)|] == Live(rs)
  {
    if Live(rs) != [] {
      SqueezeLive(rs[1..]);
      var t := Squeeze(rs[1..]);
      if IsLive(rs[0]) {
        assert ([rs[0]] + t)[1..] == t;
        assert Live(rs) == [rs[0]] + Live(rs[1..]);
      } else {
        assert Live(rs) == Live(rs[1..]);
      }
    }
  }

  /** Where a live record lies afterwards: right behind the live records before it. */
  lemma SqueezeOffset(rs: seq<Rec>, k: nat)
    requires k < |Live(rs)|
    ensures k < |Squeeze(rs)| && Squeeze(rs)[k] == Live(rs)[k]
    ensures OffsetOf(Squeeze(rs), k) == OffsetOf(Live(rs), k)
  {
    SqueezeLive(rs);
    assert Squeeze(rs)[..|Live(rs)|][k] == Squeeze(rs)[k];
    assert Squeeze(rs)[..|Live(rs)|][..k] == Squeeze(rs)[..k];
  }

  /** The list while the loop stands at record k of the original. */
  function Midway(rs: seq<Rec>, k: nat): seq<Rec>
    requires k <= |rs|
  {
    Live(rs[..k]) + rs[k..]
  }

  lemma SqueezeCons(x: Rec, rest: seq<Rec>)
    requires Live([x] + rest) != []
    ensures Squeeze([x] + rest) == (if IsLive(x) then [x] else []) + Squeeze(rest)
  {
    assert ([x] + rest)[1..] == rest;
  }

  lemma SqueezeNone(rs: seq<Rec>)
    requires Live(rs) == []
    ensures Squeeze(rs) == rs
  {
  }

  /** Passing the first record. */
  lemma MidwayCons(x: Rec, rest: seq<Rec>, k: nat)
    requires k <= |rest|
    ensures Live(([x] + rest)[..k + 1]) == (if IsLive(x) then [x] else []) + Live(rest[..k])
    ensures Live([x] + rest) == (if IsLive(x) then [x] else []) + Live(rest)
    ensures Midway([x] + rest, k + 1) == (if IsLive(x) then [x] else []) + Midway(rest, k)
  {
    hide Live;
    ConsSlices(x, rest, k);
    LiveCons(x, rest[..k]);
    LiveCons(x, rest);
    var l := if IsLive(x) then [x] else [];
    assert (l + Live(rest[..k])) + rest[k..] == l + (Live(rest[..k]) + rest[k..]);
  }

  lemma ConsSlices(x: Rec, rest: seq<Rec>, k: nat)
    requires k <= |rest|
    ensures ([x] + rest)[..k + 1] == [x] + rest[..k] && ([x] + rest)[k + 1..] == rest[k..]
  {
  }

  /** The loop stops behind the last live record; what lies further stays. */
  lemma {:induction false} MidwayEnd(rs: seq<Rec>, k: nat)
    requires k <= |rs| && |Live(rs[..k])| == |Live(rs)|
    requires k > 0 ==> IsLive(rs[k - 1])
    ensures Midway(rs, k) == Squeeze(rs)
    decreases k
  {
    hide Squeeze, Live, Midway;
    if k == 0 {
      MidwayStart(rs);
      SqueezeNone(rs);
    } else {
      var x, rest := rs[0], rs[1..];
      assert rs == [x] + rest;
      LiveFront(rs, k);
      MidwayCons(x, rest, k - 1);
      SqueezeCons(x, rest);
      MidwayEnd(rest, k - 1);
    }
  }

  lemma MidwayStart(rs: seq<Rec>)
    ensures Midway(rs, 0) == rs && Live(rs[..0]) == []
  {
    assert rs[..0] == [] && rs[0..] == rs;
  }

  lemma LiveFront(rs: seq<Rec>, k: nat)
    requires 0 < k <= |rs| && IsLive(rs[k - 1])
    ensures Live(rs) != [] && |Live(rs[..k])| > 0
  {
    LiveStep(rs, k - 1);
  }

  // ---------------------------------------------------------------- bytes

  /** memcpy of everything behind a record onto the record: the tail comes forward, the
      last bytes of the block stay as they are. */
  function Pulled(d: seq<nat>, at: nat, size: nat): (r: seq<nat>)
    requires at + size <= |d|
    ensures |r| == |d|
  {
    d[..at] + d[at + size..] + d[|d| - size..]
  }

  lemma PackedPulled(d: seq<nat>, rs: seq<Rec>, k: nat)
    requires Packed(d, rs) && k < |rs|
    ensures var o, size := OffsetOf(rs, k), RECORD_HDR + |rs[k].name|;
            && o + size <= |d| && Packed(Pulled(d, o, size), rs[..k] + rs[k + 1..])
            && OffsetOf(rs[..k] + rs[k + 1..], |rs| - 1) == OffsetOf(rs, |rs|) - size
            && OffsetOf(rs[..k] + rs[k + 1..], k) == o
  {
    hide EncAll, Enc;
    var o, size, e := OffsetOf(rs, k), RECORD_HDR + |rs[k].name|, OffsetOf(rs, |rs|);
    var qs := rs[..k] + rs[k + 1..];
    RecordAt(d, rs, k);
    OffsetStep(rs, k);
    assert rs[..|rs|] == rs && qs[..|qs|] == qs && qs[..k] == rs[..k];
    EncAppend(rs[..k], rs[k + 1..]);
    var a, b := EncAll(rs[..k]), EncAll(rs[k + 1..]);
    PulledBytes(d, FIRST_RECORD, e, a, Enc(rs[k]), b);
  }

  lemma PulledBytes(d: seq<nat>, from: nat, to: nat, a: seq<nat>, m: seq<nat>, b: seq<nat>)
    requires from <= to <= |d| && d[from..to] == a + m + b
    ensures Pulled(d, from + |a|, |m|)[from..to - |m|] == a + b
  {
    var l := d[from..to];
    assert l[..|a|] == a && l[|a| + |m|..] == b;
    assert d[from..from + |a|] == a && d[from + |a| + |m|..to] == b;
  }

  /** memcpy, byte by byte upwards. */
  method PullTail(d: seq<nat>, at: nat, size: nat) returns (r: seq<nat>)
    requires at + size <= |d|
    ensures r == Pulled(d, at, size)
  {
    r := d;
    var n := |d| - (at + size);
    for i := 0 to n
      invariant |r| == |d|
      invariant forall j | 0 <= j < |d| :: r[j] == PulledByte(d, at, size, i, j)
    {
      r := r[at + i := r[at + i + size]];
    }
    var q := Pulled(d, at, size);
    assert forall j | 0 <= j < |d| :: q[j] == PulledByte(d, at, size, n, j);
  }

  function PulledByte(d: seq<nat>, at: nat, size: nat, i: nat, j: nat): nat
    requires j < |d| && at + size + i <= |d|
  {
    if at <= j < at + i then d[j + size] else d[j]
  }

  // ----------------------------------------------------------------- loop

  /** A directory entry's place: name_bno and block_index. */
  datatype Place = Place(bno: nat, index: nat)

  ghost predicate Distinguished(h: seq<nat> -> nat, rs: seq<Rec>) {
    forall i, j | 0 <= i < j < |rs| :: h(ItemOf(rs[i]).name) != h(ItemOf(rs[j]).name)
  }

  /** Where the loop stands: k records of the original are behind, i of them live. */
  ghost predicate Standing(x: NBlk, y: NBlk, rs: seq<Rec>, k: nat, i: nat, pos: nat) {
    && k <= |rs| && i == |Live(rs[..k])| <= |Live(rs)| && pos == OffsetOf(Live(rs), i)
    && (k > 0 && i == |Live(rs)| ==> IsLive(rs[k - 1]))
    && y == x.(data := y.data, startUnused := OffsetOf(Midway(rs, k), |Midway(rs, k)|)) && Packed(y.data, Midway(rs, k))
  }

  lemma StandingRecord(x: NBlk, y: NBlk, rs: seq<Rec>, k: nat, i: nat, pos: nat)
    requires Standing(x, y, rs, k, i, pos) && i < |Live(rs)|
    ensures k < |rs| && pos + RECORD_HDR + |rs[k].name| <= |y.data| && WellSized(rs[k])
    ensures Word(y.data, pos) == rs[k].ino && Word(y.data, pos + 4) == |rs[k].name|
    ensures y.data[pos + RECORD_HDR..pos + RECORD_HDR + |rs[k].name|] == rs[k].name
  {
    hide Live, EncAll, OffsetOf, Packed, Word, Midway;
    LiveLeft(rs, k);
    MidwayNext(rs, k);
    PackedRecord(y.data, Midway(rs, k), i);
  }

  lemma StandingLive(x: NBlk, y: NBlk, rs: seq<Rec>, k: nat, i: nat, pos: nat)
    requires Standing(x, y, rs, k, i, pos) && i < |Live(rs)| && k < |rs| && IsLive(rs[k])
    ensures Live(rs)[i] == rs[k] && pos == OffsetOf(Live(rs), i)
    ensures Standing(x, y, rs, k + 1, i + 1, pos + RECORD_HDR + |rs[k].name|)
  {
    hide Live, EncAll, OffsetOf, Packed, Midway;
    MidwayNext(rs, k);
    OffsetStep(Live(rs), i);
  }

  lemma StandingTomb(x: NBlk, y: NBlk, rs: seq<Rec>, k: nat, i: nat, pos: nat)
    requires Standing(x, y, rs, k, i, pos) && i < |Live(rs)| && k < |rs| && !IsLive(rs[k])
    ensures var size := RECORD_HDR + |rs[k].name|;
            && pos + size <= |y.data| && size <= y.startUnused
            && Standing(x, y.(startUnused := y.startUnused - size, data := Pulled(y.data, pos, size)), rs, k + 1, i,
                        pos)
  {
    hide Live, EncAll, OffsetOf, Packed, Midway, Pulled;
    MidwayNext(rs, k);
    PackedPulled(y.data, Midway(rs, k), i);
  }

  lemma NameHash(r: Rec)
    requires 1 <= |r.name|
    ensures ItemOf(r).name == r.name[..|r.name| - 1]
  {
  }

  /** The record the loop looks at, and what the list becomes when it is passed. */
  lemma MidwayNext(rs: seq<Rec>, k: nat)
    requires k < |rs|
    ensures var mid, i := Midway(rs, k), |Live(rs[..k])|;
            && i < |mid| && mid[i] == rs[k] && mid[..i] == Live(rs[..k]) && i <= |Live(rs)|
            && Midway(rs, k + 1) == (if IsLive(rs[k]) then mid else mid[..i] + mid[i + 1..])
            && |Live(rs[..k + 1])| == (if IsLive(rs[k]) then i + 1 else i)
            && OffsetOf(mid, i) == OffsetOf(Live(rs), i)
            && (IsLive(rs[k]) ==> i < |Live(rs)| && Live(rs)[i] == rs[k])
            && |Live(rs[..k + 1])| <= |Live(rs)|
            && (!IsLive(rs[k]) && i < |Live(rs)| ==> |Live(rs[..k + 1])| < |Live(rs)|)
  {
    hide Live, EncAll;
    LiveStep(rs, k);
    var a := Live(rs[..k]);
    assert rs[k..] == [rs[k]] + rs[k + 1..];
    assert Live(rs)[..|a|] == a;
    var mid := Midway(rs, k);
    assert mid[..|a|] == a && mid[|a| + 1..] == rs[k + 1..];
    assert Midway(rs, k + 1) == Live(rs[..k + 1]) + rs[k + 1..];
  }

  lemma PackedRecord(d: seq<nat>, rs: seq<Rec>, k: nat)
    requires Packed(d, rs) && k < |rs|
    ensures var o := OffsetOf(rs, k);
            && o + RECORD_HDR + |rs[k].name| <= |d| && WellSized(rs[k])
            && Word(d, o) == rs[k].ino && Word(d, o + 4) == |rs[k].name|
            && d[o + RECORD_HDR..o + RECORD_HDR + |rs[k].name|] == rs[k].name
  {
    RecordAt(d, rs, k);
  }

  lemma SqueezeEnd(x: NBlk, y: NBlk, rs: seq<Rec>, k: nat, pos: nat)
    requires Parsed(x, rs) && Standing(x, y, rs, k, |Live(rs)|, pos)
    ensures Parsed(y, Squeeze(rs)) && y.first == x.first && y.prev == x.prev && y.next == x.next
  {
    hide Packed, EncAll, Live, OffsetOf, Midway;
    MidwayEnd(rs, k);
    SqueezeLive(rs);
  }
}
