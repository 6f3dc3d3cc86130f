/** The flat directory of BasicFATFS (dir.c, io.h): fixed-size entry blocks behind a table,
    kept as one sequence without gaps. */
module FatDir {
  import opened Slices

  /** BASICFTFS_ENTRIES_PER_BLOCK: 4096 / sizeof(struct basicftfs_entry) */
  const PER_BLOCK := 15
  /** BASICFTFS_ATABLE_MAX_BLOCKS */
  const MAX_BLOCKS := 1023

  datatype FEntry = FEntry(ino: nat, name: seq<nat>)

  const ZERO := FEntry(0, [])

  type Blk = seq<FEntry>

  function Zeros(n: nat): seq<FEntry> { seq(n, _ => ZERO) }

  /** All slots, block after block. */
  function Slots(blocks: seq<Blk>): seq<FEntry> {
    if blocks == [] then [] else blocks[0] + Slots(blocks[1..])
  }

  ghost predicate FullBlocks(blocks: seq<Blk>) { forall b | b in blocks :: |b| == PER_BLOCK }

  /** The slots are the entries es, followed by zeroed slots only. */
  ghost predicate Gapless(blocks: seq<Blk>, es: seq<FEntry>) {
    && FullBlocks(blocks) && |es| <= |Slots(blocks)|
    && Slots(blocks) == es + Zeros(|Slots(blocks)| - |es|)
    && forall e | e in es :: e.ino != 0
  }

  // --------------------------------------------------------------- slots

  lemma {:induction false} SlotsAppend(a: seq<Blk>, b: seq<Blk>)
    ensures Slots(a + b) == Slots(a) + Slots(b)
  {
    if a == [] {
      assert a + b == b;
    } else {
      SlotsAppend(a[1..], b);
      assert [a[0]] + a[1..] == a;
      SlotsStep(a[0], a[1..], b);
    }
  }

  lemma SlotsCons(x: Blk, s: seq<Blk>)
    ensures Slots([x] + s) == x + Slots(s)
  {
    assert ([x] + s)[1..] == s;
  }

  lemma SlotsStep(x: Blk, s: seq<Blk>, b: seq<Blk>)
    requires Slots(s + b) == Slots(s) + Slots(b)
    ensures Slots(([x] + s) + b) == Slots([x] + s) + Slots(b)
  {
    hide Slots;
    assert ([x] + s) + b == [x] + (s + b);
    SlotsCons(x, s);
    SlotsCons(x, s + b);
    assert x + (Slots(s) + Slots(b)) == (x + Slots(s)) + Slots(b);
  }

  lemma SlotsOne(x: Blk)
    ensures Slots([x]) == x
  {
    assert [x][1..] == [] && Slots([]) == [] && x + [] == x;
  }

  lemma SlotsSplit(blocks: seq<Blk>, i: nat)
    requires i < |blocks|
    ensures Slots(blocks) == Slots(blocks[..i]) + blocks[i] + Slots(blocks[i + 1..])
    ensures Slots(blocks[..i + 1]) == Slots(blocks[..i]) + blocks[i]
    ensures Slots(blocks[i..]) == blocks[i] + Slots(blocks[i + 1..])
  {
    hide Slots;
    CutAt(blocks, i);
    SlotsGlue(blocks[..i], blocks[i], blocks[i + 1..]);
  }

  lemma SlotsGlue(a: seq<Blk>, x: Blk, b: seq<Blk>)
    ensures Slots(a + [x] + b) == Slots(a) + x + Slots(b)
    ensures Slots(a + [x]) == Slots(a) + x && Slots([x] + b) == x + Slots(b)
  {
    hide Slots;
    SlotsAppend(a, [x]);
    SlotsAppend(a + [x], b);
    SlotsOne(x);
    SlotsCons(x, b);
  }

  lemma {:induction false} SlotsSize(blocks: seq<Blk>)
    requires FullBlocks(blocks)
    ensures |Slots(blocks)| == PER_BLOCK * |blocks|
  {
    if blocks != [] {
      SlotsSize(blocks[1..]);
    }
  }

  /** Slot j of block i among all slots. */
  lemma SlotAt(blocks: seq<Blk>, i: nat, j: nat)
    requires FullBlocks(blocks) && i < |blocks| && j < PER_BLOCK
    ensures |blocks[i]| == PER_BLOCK && PER_BLOCK * i + j < |Slots(blocks)|
            && Slots(blocks)[PER_BLOCK * i + j] == blocks[i][j]
  {
    SlotsSplit(blocks, i);
    SlotsSize(blocks[..i]);
  }

  /** What stands in a slot of a gapless directory. */
  lemma GaplessAt(blocks: seq<Blk>, es: seq<FEntry>, i: nat, j: nat)
    requires Gapless(blocks, es) && i < |blocks| && j < PER_BLOCK
    ensures |blocks[i]| == PER_BLOCK
    ensures blocks[i][j] == if PER_BLOCK * i + j < |es| then es[PER_BLOCK * i + j] else ZERO
    ensures blocks[i][j].ino == 0 <==> |es| <= PER_BLOCK * i + j
  {
    hide Slots;
    SlotAt(blocks, i, j);
  }

  lemma SlotsUpdate(blocks: seq<Blk>, i: nat, x: Blk)
    requires i < |blocks| && FullBlocks(blocks) && |x| == PER_BLOCK
    ensures FullBlocks(blocks[i := x])
    ensures Slots(blocks[i := x]) == Slots(blocks[..i]) + x + Slots(blocks[i + 1..])
  {
    SlotsSplit(blocks[i := x], i);
    assert blocks[i := x][..i] == blocks[..i] && blocks[i := x][i + 1..] == blocks[i + 1..];
  }

  // ------------------------------------------------------------ reference

  /** First entry with a name, first position of an inode. */
  function FindName(es: seq<FEntry>, name: seq<nat>): nat {
    if es == [] then 0 else if es[0].name == name then es[0].ino else FindName(es[1..], name)
  }

  function PosOf(es: seq<FEntry>, ino: nat): (p: nat)
    ensures p <= |es| && (p < |es| ==> es[p].ino == ino) && forall q | 0 <= q < p :: es[q].ino != ino
  {
    if es == [] || es[0].ino == ino then 0 else 1 + PosOf(es[1..], ino)
  }

  function Without(es: seq<FEntry>, p: nat): seq<FEntry> { if p < |es| then es[..p] + es[p + 1..] else es }

  lemma {:induction false} FindNameFrom(es: seq<FEntry>, name: seq<nat>, p: nat)
    requires p <= |es| && (forall q | 0 <= q < p :: es[q].name != name) && (p < |es| ==> es[p].name == name)
    ensures FindName(es, name) == if p < |es| then es[p].ino else 0
  {
    if p > 0 {
      FindNameFrom(es[1..], name, p - 1);
    }
  }

  lemma PosIs(es: seq<FEntry>, ino: nat, p: nat)
    requires p < |es| && es[p].ino == ino && forall q | 0 <= q < p :: es[q].ino != ino
    ensures PosOf(es, ino) == p
  {
  }

  // ----------------------------------------------------- block operations

  /** memmove of the entries behind slot fi one slot down, then memset of the last slot
      (remove_file_from_dir). */
  method RemoveFileFromDir(fi: nat, x: Blk) returns (y: Blk)
    requires fi < |x| == PER_BLOCK
    ensures y == x[..fi] + x[fi + 1..] + [ZERO]
  {
    y := x;
    var i := fi;
    while i < PER_BLOCK - 1
      invariant fi <= i <= PER_BLOCK - 1 && |y| == PER_BLOCK
      invariant forall j | 0 <= j < PER_BLOCK :: y[j] == MovedDown(x, fi, i, j)
    {
      y := y[i := y[i + 1]];
      i := i + 1;
    }
    y := y[PER_BLOCK - 1 := ZERO];
    var r := x[..fi] + x[fi + 1..] + [ZERO];
    assert forall j | 0 <= j < PER_BLOCK - 1 :: r[j] == MovedDown(x, fi, PER_BLOCK - 1, j);
    assert forall j | 0 <= j < PER_BLOCK :: y[j] == r[j];
  }

  function MovedDown(x: Blk, fi: nat, i: nat, j: nat): FEntry
    requires i < |x| && j < |x|
  {
    if fi <= j < i then x[j + 1] else x[j]
  }

  /** move_files: the first entry of cur fills the last slot of prev. */
  method MoveFiles(prev: Blk, cur: Blk) returns (prev': Blk, cur': Blk)
    requires |prev| == |cur| == PER_BLOCK
    ensures prev' == prev[..PER_BLOCK - 1] + [cur[0]] && cur' == cur[1..] + [ZERO]
  {
    prev' := prev[PER_BLOCK - 1 := cur[0]];
    cur' := RemoveFileFromDir(0, cur);
    assert cur[..0] + cur[1..] == cur[1..];
  }

  // ----------------------------------------------------- the whole sequence

  lemma GaplessEnd(blocks: seq<Blk>, es: seq<FEntry>)
    requires Gapless(blocks, es)
    ensures |es| <= PER_BLOCK * |blocks|
  {
    SlotsSize(blocks);
  }

  /** One zeroed block more. */
  lemma GaplessGrow(blocks: seq<Blk>, es: seq<FEntry>)
    requires Gapless(blocks, es)
    ensures Gapless(blocks + [Zeros(PER_BLOCK)], es)
  {
    hide Slots;
    SlotsAppend(blocks, [Zeros(PER_BLOCK)]);
    SlotsOne(Zeros(PER_BLOCK));
    assert Zeros(|Slots(blocks)| - |es|) + Zeros(PER_BLOCK) == Zeros(|Slots(blocks)| + PER_BLOCK - |es|);
  }

  /** Filling the first free slot. */
  lemma GaplessSet(blocks: seq<Blk>, es: seq<FEntry>, i: nat, j: nat, e: FEntry)
    requires Gapless(blocks, es) && i < |blocks| && j < PER_BLOCK == |blocks[i]| && PER_BLOCK * i + j == |es|
             && e.ino != 0
    ensures Gapless(blocks[i := blocks[i][j := e]], es + [e])
  {
    hide Slots;
    var x := blocks[i][j := e];
    SlotsUpdate(blocks, i, x);
    SlotsSplit(blocks, i);
    SlotsSize(blocks[..i]);
    SlotAt(blocks, i, j);
    var a, c := Slots(blocks[..i]), Slots(blocks[i + 1..]);
    assert Slots(blocks[i := x]) == Slots(blocks)[|es| := e];
    assert Slots(blocks)[|es| := e] == (es + [e]) + Zeros(|Slots(blocks)| - |es| - 1);
  }

  /** Entry p of the first bi blocks is out and the gap behind it is the last slot of
      block bi - 1; the later blocks are untouched. */
  ghost predicate Closing(blocks: seq<Blk>, was: seq<Blk>, p: nat, bi: nat) {
    && 0 < bi <= |was| == |blocks| && FullBlocks(was) && FullBlocks(blocks) && blocks[bi..] == was[bi..]
    && p < |Slots(was[..bi])| && Slots(blocks[..bi]) == Without(Slots(was[..bi]), p) + [ZERO]
  }

  lemma ClosingStart(was: seq<Blk>, bi: nat, fi: nat)
    requires FullBlocks(was) && bi < |was| && fi < PER_BLOCK && |was[bi]| == PER_BLOCK
    ensures Closing(was[bi := was[bi][..fi] + was[bi][fi + 1..] + [ZERO]], was, PER_BLOCK * bi + fi, bi + 1)
  {
    hide Slots;
    var x := was[bi][..fi] + was[bi][fi + 1..] + [ZERO];
    var now := was[bi := x];
    SlotsSplit(was, bi);
    SlotsSplit(now, bi);
    SlotsSize(was[..bi]);
    assert now[..bi] == was[..bi];
    var a := Slots(was[..bi]);
    assert (a + was[bi])[..|a| + fi] == a + was[bi][..fi] && (a + was[bi])[|a| + fi + 1..] == was[bi][fi + 1..];
  }

  lemma ClosingNext(blocks: seq<Blk>, was: seq<Blk>, p: nat, bi: nat)
    requires Closing(blocks, was, p, bi) && bi < |blocks|
    ensures |blocks[bi - 1]| == |blocks[bi]| == PER_BLOCK
    ensures var prev, cur := blocks[bi - 1][..PER_BLOCK - 1] + [blocks[bi][0]], blocks[bi][1..] + [ZERO];
            Closing(blocks[bi - 1 := prev][bi := cur], was, p, bi + 1)
  {
    hide Slots;
    var prev, cur := blocks[bi - 1][..PER_BLOCK - 1] + [blocks[bi][0]], blocks[bi][1..] + [ZERO];
    var now := blocks[bi - 1 := prev][bi := cur];
    assert blocks[bi..][0] == was[bi..][0] && blocks[bi..][1..] == was[bi..][1..];
    SlotsSplit(blocks, bi - 1);
    SlotsSplit(now, bi - 1);
    SlotsSplit(now, bi);
    SlotsSplit(was, bi);
    assert now[..bi - 1] == blocks[..bi - 1] && now[bi + 1..] == was[bi + 1..];
    var a, f, c := Slots(blocks[..bi - 1]), Slots(was[..bi]), was[bi];
    GapMoves(a, blocks[bi - 1], f, p, c);
    assert now[bi + 1..] == blocks[bi + 1..];
  }

  /** The first entry of the next block closes the gap and leaves one behind itself. */
  lemma GapMoves(a: seq<FEntry>, x: Blk, f: seq<FEntry>, p: nat, c: Blk)
    requires |x| == |c| == PER_BLOCK && p < |f| && a + x == Without(f, p) + [ZERO]
    ensures a + (x[..PER_BLOCK - 1] + [c[0]]) + (c[1..] + [ZERO]) == Without(f + c, p) + [ZERO]
  {
    var w := Without(f, p);
    assert (a + x)[..|a| + PER_BLOCK - 1] == a + x[..PER_BLOCK - 1];
    assert (w + [ZERO])[..|w|] == w;
    assert [c[0]] + c[1..] == c;
    assert Without(f + c, p) == w + c;
    assert a + (x[..PER_BLOCK - 1] + [c[0]]) + (c[1..] + [ZERO])
             == (a + x[..PER_BLOCK - 1]) + ([c[0]] + c[1..]) + [ZERO];
  }

  lemma ClosingEnd(blocks: seq<Blk>, was: seq<Blk>, es: seq<FEntry>, p: nat, bi: nat)
    requires Gapless(was, es) && Closing(blocks, was, p, bi) && p < |es| && |es| <= PER_BLOCK * bi
    ensures Gapless(blocks, Without(es, p))
  {
    hide Slots;
    SlotsSize(was);
    SlotsSize(was[..bi]);
    assert was == was[..bi] + was[bi..] && blocks == blocks[..bi] + blocks[bi..];
    SlotsAppend(was[..bi], was[bi..]);
    SlotsAppend(blocks[..bi], blocks[bi..]);
    var f, g := Slots(was[..bi]), Slots(was[bi..]);
    EsZeros(f, g, es, Zeros(|Slots(was)| - |es|));
    ClosedUp(f, g, es, p, Slots(blocks));
    assert forall e | e in Without(es, p) :: e in es;
  }

  /** With only zeroed slots behind, the gap is one of them. */
  lemma ClosedUp(f: seq<FEntry>, g: seq<FEntry>, es: seq<FEntry>, p: nat, now: seq<FEntry>)
    requires p < |es| <= |f| && f == es + Zeros(|f| - |es|) && g == Zeros(|g|)
    requires now == (Without(f, p) + [ZERO]) + g
    ensures |now| == |f| + |g| && now == Without(es, p) + Zeros(|now| - |Without(es, p)|)
  {
    var k := |f| - |es|;
    assert Without(f, p) == Without(es, p) + Zeros(k);
    ZerosGlue(Without(es, p), k, |g|);
  }

  lemma ZerosGlue(w: seq<FEntry>, k: nat, n: nat)
    ensures ((w + Zeros(k)) + [ZERO]) + Zeros(n) == w + Zeros(k + 1 + n)
  {
  }

  lemma EsZeros(f: seq<FEntry>, g: seq<FEntry>, es: seq<FEntry>, z: seq<FEntry>)
    requires f + g == es + z && |es| <= |f| && z == Zeros(|z|)
    ensures f == es + Zeros(|f| - |es|) && g == Zeros(|g|)
  {
    assert f == (f + g)[..|f|] && g == (f + g)[|f|..];
  }

  /** Scanning block bi for an inode the earlier blocks do not have. */
  lemma NotFoundYet(was: seq<Blk>, es: seq<FEntry>, ino: nat, bi: nat, fi: nat)
    requires Gapless(was, es) && bi < |was| && fi <= PER_BLOCK && ino != 0
    requires forall q | 0 <= q < PER_BLOCK * bi && q < |es| :: es[q].ino != ino
    requires |was[bi]| == PER_BLOCK && (forall q | 0 <= q < fi :: was[bi][q].ino != ino)
             && (fi < PER_BLOCK ==> was[bi][fi].ino == ino)
    ensures fi < PER_BLOCK ==> PER_BLOCK * bi + fi < |es| && PosOf(es, ino) == PER_BLOCK * bi + fi
    ensures forall q | 0 <= q < PER_BLOCK * bi + fi && q < |es| :: es[q].ino != ino
  {
    hide Slots, Gapless;
    forall q | 0 <= q < PER_BLOCK * bi + fi && q < |es|
      ensures es[q].ino != ino
    {
      if PER_BLOCK * bi <= q { GaplessAt(was, es, bi, q - PER_BLOCK * bi); }
    }
    if fi < PER_BLOCK {
      GaplessAt(was, es, bi, fi);
      PosIs(es, ino, PER_BLOCK * bi + fi);
    }
  }

  /** Where the loop over the blocks stops, nothing is left to look at. */
  lemma NoMore(was: seq<Blk>, es: seq<FEntry>, bi: nat)
    requires Gapless(was, es) && bi <= |was| && (bi < |was| ==> |was[bi]| == PER_BLOCK && was[bi][0].ino == 0)
    ensures |es| <= PER_BLOCK * bi
  {
    if bi < |was| { GaplessAt(was, es, bi, 0); } else { GaplessEnd(was, es); }
  }

  lemma BlocksFull(was: seq<Blk>, es: seq<FEntry>)
    requires Gapless(was, es)
    ensures forall b | b in was :: |b| == PER_BLOCK
  {
  }

  class FatDirectory {
    /** Entry blocks in table order; the table ends at the first zero. */
    var blocks: seq<Blk>
    var nrOfEntries: nat

    constructor ()
      ensures Valid([])
    {
      blocks, nrOfEntries := [], 0;
    }

    /** The directory is the sequence es. */
    ghost predicate Valid(es: seq<FEntry>)
      reads this
    {
      Gapless(blocks, es) && nrOfEntries == |es|
    }

    /** basicftfs_search_entry */
    method SearchEntry(name: seq<nat>, ghost es: seq<FEntry>) returns (ino: nat)
      requires Valid(es)
      ensures ino == FindName(es, name)
    {
      hide Gapless;
      var bi := 0;
      while bi < |blocks|
        invariant bi <= |blocks| && PER_BLOCK * bi <= |es| && forall q | 0 <= q < PER_BLOCK * bi :: es[q].name != name
      {
        var fi := 0;
        while fi < PER_BLOCK
          invariant fi <= PER_BLOCK && PER_BLOCK * bi + fi <= |es|
          invariant forall q | 0 <= q < PER_BLOCK * bi + fi :: es[q].name != name
        {
          GaplessAt(blocks, es, bi, fi);
          if blocks[bi][fi].ino == 0 {
            FindNameFrom(es, name, |es|);
            return 0;
          }
          if blocks[bi][fi].name == name {
            FindNameFrom(es, name, PER_BLOCK * bi + fi);
            return blocks[bi][fi].ino;
          }
          fi := fi + 1;
        }
        bi := bi + 1;
      }
      GaplessEnd(blocks, es);
      FindNameFrom(es, name, |es|);
      ino := 0;
    }

    /** basicftfs_add_entry: appends. A new entry block is taken to come zeroed. */
    method AddEntry(name: seq<nat>, ino: nat, ghost es: seq<FEntry>)
      requires Valid(es) && ino != 0 && |es| < PER_BLOCK * MAX_BLOCKS
      modifies this
      ensures Valid(es + [FEntry(ino, name)])
    {
      hide Slots;
      var bi, ei := nrOfEntries / PER_BLOCK, nrOfEntries % PER_BLOCK;
      SlotsSize(blocks);
      if bi == |blocks| {
        GaplessGrow(blocks, es);
        blocks := blocks + [Zeros(PER_BLOCK)];
      }
      GaplessAt(blocks, es, bi, ei);
      GaplessSet(blocks, es, bi, ei, FEntry(ino, name));
      blocks := blocks[bi := blocks[bi][ei := FEntry(ino, name)]];
      nrOfEntries := nrOfEntries + 1;
    }

    /** basicftfs_delete_entry: takes out the first entry with the inode and closes the gap
        across all later blocks. */
    method DeleteEntry(ino: nat, ghost es: seq<FEntry>)
      requires Valid(es) && ino != 0
      modifies this
      ensures Valid(Without(es, PosOf(es, ino)))
    {
      hide Gapless, Slots;
      ghost var was, n := blocks, nrOfEntries;
      var bi, found := 0, false;
      ghost var p: nat := |es|;
      BlocksFull(was, es);
      while bi < |blocks| && blocks[bi][0].ino != 0
        invariant bi <= |blocks| && nrOfEntries == n && |blocks| == |was| && Gapless(was, es)
        invariant !found ==> blocks == was && forall q | 0 <= q < PER_BLOCK * bi && q < |es| :: es[q].ino != ino
        invariant found ==> 0 < bi && p == PosOf(es, ino) < |es| && Closing(blocks, was, p, bi)
        invariant forall b | b in blocks :: |b| == PER_BLOCK
        decreases |blocks| - bi
      {
        if found {
          ClosingNext(blocks, was, p, bi);
          var prev, cur := MoveFiles(blocks[bi - 1], blocks[bi]);
          blocks := blocks[bi - 1 := prev][bi := cur];
        } else {
          var fi := 0;
          while fi < PER_BLOCK && blocks[bi][fi].ino != ino
            invariant fi <= PER_BLOCK && forall q | 0 <= q < fi :: blocks[bi][q].ino != ino
          {
            fi := fi + 1;
          }
          NotFoundYet(was, es, ino, bi, fi);
          if fi < PER_BLOCK {
            found := true;
            p := PER_BLOCK * bi + fi;
            ClosingStart(was, bi, fi);
            var x := RemoveFileFromDir(fi, blocks[bi]);
            blocks := blocks[bi := x];
          }
        }
        bi := bi + 1;
      }
      if found {
        nrOfEntries := nrOfEntries - 1;
        assert bi < |was| ==> blocks[bi..][0] == was[bi..][0];
        NoMore(was, es, bi);
        ClosingEnd(blocks, was, es, p, bi);
      } else {
        NoMore(was, es, bi);
      }
    }
  }
}
