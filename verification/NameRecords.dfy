/** Byte-packed name records (basicbtfs_name_entry followed by the name and its NUL). */
module NameRecords {
  import opened Bitmap
  import opened Slices

  /** BASICBTFS_BLOCKSIZE */
  const BLOCK_SIZE := 4096
  /** BASICBTFS_NAME_ENTRY_S_OFFSET: the header and the type word. */
  const FIRST_RECORD := 28
  /** sizeof(struct basicbtfs_name_entry) */
  const RECORD_HDR := 8

  /** One record; ino 0 is a tombstone. The name includes its final NUL. */
  datatype Rec = Rec(ino: nat, name: seq<nat>)

  predicate IsLive(r: Rec) { r.ino != 0 }

  predicate WellSized(r: Rec) { r.ino < U32 && 1 <= |r.name| < U32 }

  function Live(rs: seq<Rec>): (l: seq<Rec>)
    ensures |l| <= |rs|
  {
    if rs == [] then [] else (if IsLive(rs[0]) then [rs[0]] else []) + Live(rs[1..])
  }

  lemma LiveCons(x: Rec, s: seq<Rec>)
    ensures Live([x] + s) == (if IsLive(x) then [x] else []) + Live(s)
  {
    assert ([x] + s)[1..] == s;
  }

  lemma {:induction false} LiveAppend(a: seq<Rec>, b: seq<Rec>)
    ensures Live(a + b) == Live(a) + Live(b)
  {
    if a == [] {
      assert a + b == b;
    } else {
      LiveAppend(a[1..], b);
      assert [a[0]] + a[1..] == a;
      LiveAppendStep(a[0], a[1..], b);
    }
  }

  lemma LiveAppendStep(x: Rec, s: seq<Rec>, b: seq<Rec>)
    requires Live(s + b) == Live(s) + Live(b)
    ensures Live(([x] + s) + b) == Live([x] + s) + Live(b)
  {
    hide Live;
    assert ([x] + s) + b == [x] + (s + b);
    LiveCons(x, s);
    LiveCons(x, s + b);
    var l := if IsLive(x) then [x] else [];
    assert l + (Live(s) + Live(b)) == (l + Live(s)) + Live(b);
  }

  /** One record more. */
  lemma LiveStep(rs: seq<Rec>, k: nat)
    requires k < |rs|
    ensures Live(rs[..k + 1]) == Live(rs[..k]) + if IsLive(rs[k]) then [rs[k]] else []
    ensures Live(rs) == Live(rs[..k]) + (if IsLive(rs[k]) then [rs[k]] else []) + Live(rs[k + 1..])
  {
    hide Live;
    CutAt(rs, k);
    LiveGlue(rs[..k], rs[k], rs[k + 1..]);
  }

  lemma LiveGlue(a: seq<Rec>, x: Rec, b: seq<Rec>)
    ensures Live(a + [x]) == Live(a) + if IsLive(x) then [x] else []
    ensures Live(a + [x] + b) == Live(a) + (if IsLive(x) then [x] else []) + Live(b)
  {
    hide Live;
    LiveAppend(a, [x]);
    LiveAppend(a + [x], b);
    LiveOne(x);
  }

  lemma LiveOne(r: Rec)
    ensures Live([r]) == if IsLive(r) then [r] else []
  {
    assert [r][1..] == [];
  }

  // ----------------------------------------------------------------- bytes

  function Le32(n: nat): (s: seq<nat>)
    ensures |s| == 4
  {
    [n % 0x100, n / 0x100 % 0x100, n / 0x1_0000 % 0x100, n / 0x100_0000 % 0x100]
  }

  function Word(d: seq<nat>, at: nat): nat
    requires at + 4 <= |d|
  {
    d[at] + 0x100 * d[at + 1] + 0x1_0000 * d[at + 2] + 0x100_0000 * d[at + 3]
  }

  lemma WordLe32(n: nat)
    requires n < U32
    ensures Word(Le32(n), 0) == n
  {
    var b, c := n / 0x100, n / 0x1_0000;
    assert n / 0x1_0000 == b / 0x100 && n / 0x100_0000 == c / 0x100;
  }

  function Enc(r: Rec): (s: seq<nat>)
    ensures |s| == RECORD_HDR + |r.name|
  {
    Le32(r.ino) + Le32(|r.name|) + r.name
  }

  function EncAll(rs: seq<Rec>): (s: seq<nat>)
    ensures RECORD_HDR * |rs| <= |s|
  {
    if rs == [] then [] else Enc(rs[0]) + EncAll(rs[1..])
  }

  lemma {:induction false} EncAppend(a: seq<Rec>, b: seq<Rec>)
    ensures EncAll(a + b) == EncAll(a) + EncAll(b)
  {
    if a == [] {
      assert a + b == b;
    } else {
      EncAppend(a[1..], b);
      assert [a[0]] + a[1..] == a;
      EncStep(a[0], a[1..], b);
    }
  }

  lemma EncCons(x: Rec, s: seq<Rec>)
    ensures EncAll([x] + s) == Enc(x) + EncAll(s)
  {
    assert ([x] + s)[1..] == s;
  }

  lemma EncStep(x: Rec, s: seq<Rec>, b: seq<Rec>)
    requires EncAll(s + b) == EncAll(s) + EncAll(b)
    ensures EncAll(([x] + s) + b) == EncAll([x] + s) + EncAll(b)
  {
    hide EncAll, Enc;
    assert ([x] + s) + b == [x] + (s + b);
    EncCons(x, s);
    EncCons(x, s + b);
    assert Enc(x) + (EncAll(s) + EncAll(b)) == (Enc(x) + EncAll(s)) + EncAll(b);
  }

  lemma EncOne(r: Rec)
    ensures EncAll([r]) == Enc(r)
  {
    assert [r][1..] == [] && EncAll([]) == [];
  }

  /** Byte offset of record k in its block. */
  function OffsetOf(rs: seq<Rec>, k: nat): (o: nat)
    requires k <= |rs|
    ensures FIRST_RECORD <= o
  {
    FIRST_RECORD + |EncAll(rs[..k])|
  }

  lemma OffsetStep(rs: seq<Rec>, k: nat)
    requires k < |rs|
    ensures OffsetOf(rs, k + 1) == OffsetOf(rs, k) + RECORD_HDR + |rs[k].name|
    ensures EncAll(rs) == EncAll(rs[..k]) + Enc(rs[k]) + EncAll(rs[k + 1..])
  {
    hide EncAll, Enc;
    CutAt(rs, k);
    EncGlue(rs[..k], rs[k], rs[k + 1..]);
  }

  lemma EncGlue(a: seq<Rec>, x: Rec, b: seq<Rec>)
    ensures EncAll(a + [x]) == EncAll(a) + Enc(x)
    ensures EncAll(a + [x] + b) == EncAll(a) + Enc(x) + EncAll(b)
  {
    hide EncAll, Enc;
    EncAppend(a, [x]);
    EncAppend(a + [x], b);
    EncOne(x);
  }

  /** Different records begin at different offsets. */
  lemma {:induction false} OffsetsGrow(rs: seq<Rec>, j: nat, k: nat)
    requires j < k <= |rs|
    ensures OffsetOf(rs, j) + RECORD_HDR <= OffsetOf(rs, k)
    decreases k - j
  {
    OffsetStep(rs, k - 1);
    if j < k - 1 {
      OffsetsGrow(rs, j, k - 1);
    }
  }

  /** A tombstone takes the room of the record it replaces. */
  lemma OffsetTomb(rs: seq<Rec>, k: nat, j: nat)
    requires k < |rs| && j <= |rs|
    ensures OffsetOf(rs[k := rs[k].(ino := 0)], j) == OffsetOf(rs, j)
  {
    var qs := rs[k := rs[k].(ino := 0)];
    if k < j {
      assert rs[..j] == rs[..k] + [rs[k]] + rs[k + 1..j] && qs[..j] == rs[..k] + [qs[k]] + rs[k + 1..j];
      EncAppend(rs[..k] + [rs[k]], rs[k + 1..j]);
      EncAppend(rs[..k], [rs[k]]);
      EncAppend(rs[..k] + [qs[k]], rs[k + 1..j]);
      EncAppend(rs[..k], [qs[k]]);
      EncOne(rs[k]);
      EncOne(qs[k]);
    } else {
      assert rs[..j] == qs[..j];
    }
  }

  /** What stands at the offset of record k. */
  lemma RecordAt(d: seq<nat>, rs: seq<Rec>, k: nat)
    requires k < |rs| && WellSized(rs[k])
    requires OffsetOf(rs, |rs|) <= |d| && d[FIRST_RECORD..OffsetOf(rs, |rs|)] == EncAll(rs)
    ensures var o := OffsetOf(rs, k);
            && o + RECORD_HDR + |rs[k].name| == OffsetOf(rs, k + 1) <= OffsetOf(rs, |rs|)
            && Word(d, o) == rs[k].ino && Word(d, o + 4) == |rs[k].name|
            && d[o + RECORD_HDR..OffsetOf(rs, k + 1)] == rs[k].name
  {
    hide EncAll, Enc, Word, OffsetOf;
    var r := rs[k];
    OffsetStep(rs, k);
    OffsetIs(rs, k);
    var a, b := EncAll(rs[..k]), EncAll(rs[k + 1..]);
    RecordInside(d, FIRST_RECORD, OffsetOf(rs, |rs|), a, Enc(r), b);
    SliceOfRecord(d, FIRST_RECORD + |a|, r);
  }

  lemma OffsetIs(rs: seq<Rec>, k: nat)
    requires k <= |rs|
    ensures OffsetOf(rs, k) == FIRST_RECORD + |EncAll(rs[..k])|
  {
  }

  lemma RecordInside(d: seq<nat>, from: nat, to: nat, a: seq<nat>, m: seq<nat>, b: seq<nat>)
    requires from <= to <= |d| && d[from..to] == a + m + b
    ensures from + |a| + |m| <= to && d[from + |a|..from + |a| + |m|] == m
  {
    var all := a + m + b;
    assert all[|a|..|a| + |m|] == m;
    SubSlice(d, from, to, all, |a|, |m|);
  }

  lemma SubSlice(d: seq<nat>, from: nat, to: nat, all: seq<nat>, i: nat, len: nat)
    requires from <= to <= |d| && d[from..to] == all && i + len <= |all|
    ensures d[from + i..from + i + len] == all[i..i + len]
  {
    var x, y := d[from + i..from + i + len], all[i..i + len];
    forall j | 0 <= j < len
      ensures x[j] == y[j]
    {
      assert d[from..to][i + j] == d[from + i + j];
    }
  }

  lemma SliceOfRecord(d: seq<nat>, o: nat, r: Rec)
    requires WellSized(r) && o + RECORD_HDR + |r.name| <= |d| && d[o..o + RECORD_HDR + |r.name|] == Enc(r)
    ensures Word(d, o) == r.ino && Word(d, o + 4) == |r.name| && d[o + RECORD_HDR..o + RECORD_HDR + |r.name|] == r.name
  {
    var e := d[o..o + RECORD_HDR + |r.name|];
    WordLe32(r.ino);
    WordLe32(|r.name|);
    assert forall i | 0 <= i < 4 :: d[o + i] == e[i] == Le32(r.ino)[i];
    assert forall i | 0 <= i < 4 :: d[o + 4 + i] == e[4 + i] == Le32(|r.name|)[i];
    assert e[RECORD_HDR..] == r.name;
  }

  // ------------------------------------------------------------- round trip

  /** The records up to the end of the used part, read off the bytes. */
  function Parse(d: seq<nat>): seq<Rec>
    decreases |d|
  {
    if |d| < RECORD_HDR || |d| < RECORD_HDR + Word(d, 4) then []
    else [Rec(Word(d, 0), d[RECORD_HDR..RECORD_HDR + Word(d, 4)])] + Parse(d[RECORD_HDR + Word(d, 4)..])
  }

  /** Packed records read back as they were. */
  lemma {:induction false} ParseEnc(rs: seq<Rec>)
    requires forall r | r in rs :: WellSized(r)
    ensures Parse(EncAll(rs)) == rs
  {
    if rs != [] {
      ParseOne(rs[0], EncAll(rs[1..]));
      ParseEnc(rs[1..]);
    }
  }

  lemma ParseOne(r: Rec, rest: seq<nat>)
    requires WellSized(r)
    ensures Parse(Enc(r) + rest) == [r] + Parse(rest)
  {
    hide Enc, Word;
    var d := Enc(r) + rest;
    assert d[0..0 + RECORD_HDR + |r.name|] == Enc(r);
    SliceOfRecord(d, 0, r);
    assert d[RECORD_HDR + |r.name|..] == rest;
  }
}
