/** What squeezing and filling make of the records of a name list, said without the loops that do
    it: a block begins with its own live records, then come the tombstones that were behind the
    last of them, then the live records that its successor gave up. */
module NameFill {
  import opened NameRecords
  import opened NameBlocks
  import opened NameCompact
  import opened NamePull
  import NameList

  // --------------------------------------------------------------- one block

  /** The tombstones behind the last live record. */
  function Behind(rs: seq<Rec>): seq<Rec> { if Live(rs) == [] then rs else Behind(rs[1..]) }

  lemma {:induction false} SqueezeIs(rs: seq<Rec>)
    ensures Squeeze(rs) == Live(rs) + Behind(rs) && Live(Behind(rs)) == []
  {
    if Live(rs) != [] {
      SqueezeIs(rs[1..]);
    }
  }

  /** The records of which the first k have become tombstones. */
  function Buried(qs: seq<Rec>, k: nat): (r: seq<Rec>)
    ensures |r| == |qs| && forall i | 0 <= i < |qs| :: r[i] == if i < k then qs[i].(ino := 0) else qs[i]
  {
    seq(|qs|, i requires 0 <= i < |qs| => if i < k then qs[i].(ino := 0) else qs[i])
  }

  /** Filling a block with records rs from one with records qs comes to an end at record k: no live
      record is left, or what is behind the records by then is too little for record k. */
  ghost predicate Halts(rs: seq<Rec>, qs: seq<Rec>, k: nat) {
    || k >= |qs| || Live(qs[k..]) == []
    || BLOCK_SIZE <= FIRST_RECORD + |EncAll(rs + Live(qs[..k]))| + RECORD_HDR + |qs[k].name|
  }

  /** It does so at record k and not before. */
  ghost predicate HaltsAt(rs: seq<Rec>, qs: seq<Rec>, k: nat) {
    k <= |qs| && Halts(rs, qs, k) && forall j | 0 <= j < k :: !Halts(rs, qs, j)
  }

  lemma BuriedOne(qs: seq<Rec>, k: nat)
    requires k < |qs|
    ensures Buried(qs, k)[k..] == qs[k..] && Buried(qs, k)[k] == qs[k]
    ensures Buried(qs, k + 1) == if IsLive(qs[k]) then Tomb(Buried(qs, k), k) else Buried(qs, k)
  {
  }

  lemma HaltsIs(rs: seq<Rec>, qs: seq<Rec>, k: nat)
    requires k < |qs|
    ensures var ps := rs + Live(qs[..k]);
            Halts(rs, qs, k) <==> Live(qs[k..]) == [] || !NameList.HasRoom(OffsetOf(ps, |ps|), |qs[k].name|)
  {
    hide Live, EncAll;
    var ps := rs + Live(qs[..k]);
    assert ps[..|ps|] == ps;
  }

  /** Where the loop has come to record j it goes on as if it began there. */
  lemma {:induction false} PullRest(rs: seq<Rec>, qs: seq<Rec>, j: nat) returns (k: nat)
    requires j <= |qs| && forall i | 0 <= i < j :: !Halts(rs, qs, i)
    ensures HaltsAt(rs, qs, k)
    ensures PullFrom(rs + Live(qs[..j]), Buried(qs, j), j) == (rs + Live(qs[..k]), Buried(qs, k))
    decreases |qs| - j
  {
    hide Live, OffsetOf, Halts;
    k := j;
    if j < |qs| {
      HaltsIs(rs, qs, j);
      BuriedOne(qs, j);
      if Halts(rs, qs, j) {
        assert PullFrom(rs + Live(qs[..j]), Buried(qs, j), j) == (rs + Live(qs[..j]), Buried(qs, j));
      } else {
        LiveStep(qs, j);
        var l := if IsLive(qs[j]) then [qs[j]] else [];
        var ps := rs + Live(qs[..j]);
        assert rs + Live(qs[..j + 1]) == ps + l;
        assert ps + [] == ps;
        assert PullFrom(ps, Buried(qs, j), j) == PullFrom(ps + l, Buried(qs, j + 1), j + 1);
        k := PullRest(rs, qs, j + 1);
      }
    } else {
      AtEnd(rs, qs);
    }
  }

  lemma AtEnd(rs: seq<Rec>, qs: seq<Rec>)
    ensures Halts(rs, qs, |qs|)
  {
  }

  /** What PullFrom does. */
  lemma PullIs(rs: seq<Rec>, qs: seq<Rec>) returns (k: nat)
    ensures HaltsAt(rs, qs, k) && PullFrom(rs, qs, 0) == (rs + Live(qs[..k]), Buried(qs, k))
  {
    hide Live, Halts, PullFrom;
    k := PullRest(rs, qs, 0);
    assert qs[..0] == [] && Buried(qs, 0) == qs;
    LiveEmpty();
    assert rs + [] == rs;
  }

  /** The blocks recs after block i has been squeezed and filled from its successor, which has
      given up what was live of its first k records. */
  ghost predicate Refilled(recs: seq<seq<Rec>>, recs': seq<seq<Rec>>, i: nat, k: nat) {
    && i < |recs|
    && var own := Live(recs[i]) + Behind(recs[i]);
       if i + 1 < |recs| then
         && HaltsAt(own, recs[i + 1], k)
         && recs' == recs[i := own + Live(recs[i + 1][..k])][i + 1 := Buried(recs[i + 1], k)]
       else k == 0 && recs' == recs[i := own]
  }

  /** Squeezing, and then filling as PullFrom does, is that. */
  lemma SqueezedLast(recs: seq<seq<Rec>>, i: nat)
    requires i + 1 == |recs|
    ensures Refilled(recs, recs[i := Squeeze(recs[i])], i, 0)
  {
    SqueezeIs(recs[i]);
  }

  lemma SqueezedFilled(recs: seq<seq<Rec>>, i: nat) returns (k: nat)
    requires i + 1 < |recs|
    ensures var q := PullFrom(Squeeze(recs[i]), recs[i + 1], 0);
            Refilled(recs, recs[i := Squeeze(recs[i])][i := q.0][i + 1 := q.1], i, k)
  {
    hide Live, Behind, HaltsAt, PullFrom, Squeeze;
    SqueezeIs(recs[i]);
    k := PullIs(Squeeze(recs[i]), recs[i + 1]);
  }

  // ---------------------------------------------------------------- the list

  /** Block j of the list afterwards, if each block i has given up what was live of its first
      cuts[i] records to the block before it. */
  ghost predicate RepackedAt(a: seq<seq<Rec>>, b: seq<seq<Rec>>, cuts: seq<nat>, j: nat)
    requires |a| == |b| == |cuts| && j < |a|
  {
    var rest := Buried(a[j], cuts[j]);
    var own := Live(rest) + Behind(rest);
    if j + 1 < |a| then HaltsAt(own, a[j + 1], cuts[j + 1]) && b[j] == own + Live(a[j + 1][..cuts[j + 1]])
    else b[j] == own
  }

  /** The whole list has been squeezed, and each block filled from the next as far as that goes. */
  ghost predicate Repacked(a: seq<seq<Rec>>, b: seq<seq<Rec>>) {
    |a| == |b| && exists cuts :: RepackedBy(a, b, cuts)
  }

  ghost predicate RepackedBy(a: seq<seq<Rec>>, b: seq<seq<Rec>>, cuts: seq<nat>) {
    && |a| == |b| == |cuts| && (cuts != [] ==> cuts[0] == 0)
    && forall j | 0 <= j < |a| :: RepackedAt(a, b, cuts, j)
  }

  /** The first i blocks are done; the next one has given up what its predecessor took. */
  ghost predicate RepackedUpto(a: seq<seq<Rec>>, b: seq<seq<Rec>>, cuts: seq<nat>, i: nat) {
    && |a| == |b| == |cuts| && i <= |a| && (cuts != [] ==> cuts[0] == 0)
    && (forall j | 0 <= j < i :: RepackedAt(a, b, cuts, j))
    && forall j | i <= j < |a| :: b[j] == Buried(a[j], if j == i then cuts[j] else 0)
  }

  lemma RepackedStart(a: seq<seq<Rec>>)
    ensures RepackedUpto(a, a, seq(|a|, i => 0), 0)
  {
    forall j | 0 <= j < |a|
      ensures Buried(a[j], 0) == a[j]
    {
      assert forall i | 0 <= i < |a[j]| :: Buried(a[j], 0)[i] == a[j][i];
    }
  }

  lemma RepackedDone(a: seq<seq<Rec>>, b: seq<seq<Rec>>, cuts: seq<nat>)
    requires RepackedUpto(a, b, cuts, |a|)
    ensures Repacked(a, b)
  {
    assert RepackedBy(a, b, cuts);
  }

  lemma RepackedOn(a: seq<seq<Rec>>, b: seq<seq<Rec>>, b': seq<seq<Rec>>, cuts: seq<nat>, i: nat, k: nat)
    requires RepackedUpto(a, b, cuts, i) && i < |a| && Refilled(b, b', i, k)
    ensures RepackedUpto(a, b', if i + 1 < |a| then cuts[i + 1 := k] else cuts, i + 1)
  {
    hide Live, Behind, HaltsAt;
    var cuts' := if i + 1 < |a| then cuts[i + 1 := k] else cuts;
    if i + 1 < |a| {
      assert Buried(a[i + 1], 0) == a[i + 1];
    }
    forall j | 0 <= j < i + 1
      ensures RepackedAt(a, b', cuts', j)
    {
      assert j < i ==> RepackedAt(a, b, cuts, j);
    }
  }

  /** In particular the first block begins with all its live records, and no block has a tombstone
      in front of a live record it has kept. */
  lemma RepackedFront(a: seq<seq<Rec>>, b: seq<seq<Rec>>, j: nat) returns (kept: seq<Rec>)
    requires Repacked(a, b) && j < |a|
    ensures kept <= b[j] && (j == 0 ==> kept == Live(a[0]))
    ensures exists dropped :: Live(a[j]) == dropped + kept
  {
    hide Live, Behind, HaltsAt;
    var cuts :| RepackedBy(a, b, cuts);
    assert RepackedAt(a, b, cuts, j);
    var k := if cuts[j] <= |a[j]| then cuts[j] else |a[j]|;
    kept := Live(Buried(a[j], cuts[j]));
    BuriedLive(a[j], k);
    assert Buried(a[j], cuts[j]) == Buried(a[j], k);
    assert Live(a[j]) == Live(a[j][..k]) + kept by {
      assert a[j] == a[j][..k] + a[j][k..];
      LiveAppend(a[j][..k], a[j][k..]);
    }
    if j == 0 {
      assert Buried(a[0], 0) == a[0];
    }
  }

  /** What is left alive when the first k records are buried. */
  lemma {:induction false} BuriedLive(qs: seq<Rec>, k: nat)
    requires k <= |qs|
    ensures Live(Buried(qs, k)) == Live(qs[k..])
  {
    hide Live;
    var b := Buried(qs, k);
    assert b == b[..k] + qs[k..];
    LiveAppend(b[..k], qs[k..]);
    LiveNone(b[..k]);
  }
}
