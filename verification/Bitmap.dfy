/** The block allocator of bitmap.h: one bitmap, a count of free blocks and a high-water
    mark. Counters are uint32 and wrap. */
module Bitmap {

  const U32 := 0x1_0000_0000
  /** (uint32_t) -1, the failure value of every allocation. */
  const NO_BLOCK := U32 - 1

  /** start .. start+len-1 are clear and inside the bitmap. */
  ghost predicate ClearRun(bits: seq<bool>, start: nat, len: nat) {
    start + len <= |bits| && forall i | start <= i < start + len :: !bits[i]
  }

  /** First fit: the least clear run of length len at or after start, if there is one
      (bitmap_find_next_zero_area). */
  ghost predicate FirstFit(bits: seq<bool>, start: nat, len: nat, r: nat) {
    if r < |bits| then start <= r && ClearRun(bits, r, len) && forall s | start <= s < r :: !ClearRun(bits, s, len)
    else forall s | start <= s < |bits| :: !ClearRun(bits, s, len)
  }

  predicate Within(i: nat, start: nat, len: nat) { start <= i < start + len }

  function Range(start: nat, len: nat): set<nat> { set i | 0 <= i < start + len && Within(i, start, len) }

  function SetBits(bits: seq<bool>): set<nat> { set i | 0 <= i < |bits| && bits[i] }

  /** Blocks an allocation can hand out: clear and not block 0. */
  function FreeBits(bits: seq<bool>): set<nat> { set i | 1 <= i < |bits| && !bits[i] }

  lemma RangeSize(start: nat, len: nat)
    ensures |Range(start, len)| == len
  {
    if len > 0 {
      RangeSize(start, len - 1);
      assert Range(start, len) == Range(start, len - 1) + {start + len - 1};
    } else {
      assert Range(start, 0) == {};
    }
  }

  /** A single block can be had exactly when some block other than 0 is clear. */
  lemma FreeHasFit(bits: seq<bool>, r: nat)
    requires FirstFit(bits, 1, 1, r)
    ensures r < |bits| <==> FreeBits(bits) != {}
    ensures r < |bits| ==> r in FreeBits(bits)
  {
    if r < |bits| {
      assert r in FreeBits(bits);
    } else if FreeBits(bits) != {} {
      var b :| b in FreeBits(bits);
      assert ClearRun(bits, b, 1);
    }
  }

  lemma UsedOrFree(bits: seq<bool>, b: nat)
    requires 1 <= b < |bits|
    ensures b in FreeBits(bits) <==> b !in SetBits(bits)
  {
  }

  lemma FreeInside(bits: seq<bool>)
    ensures forall b | b in FreeBits(bits) :: 1 <= b < |bits|
  {
  }

  /** Giving blocks back leaves no fewer free ones. */
  lemma FreeGrows(a: seq<bool>, b: seq<bool>)
    requires |a| == |b| && SetBits(b) <= SetBits(a)
    ensures |FreeBits(a)| <= |FreeBits(b)|
  {
    hide FreeBits, SetBits;
    FreeInside(a);
    forall x | x in FreeBits(a)
      ensures x in FreeBits(b)
    {
      UsedOrFree(a, x);
      UsedOrFree(b, x);
    }
    SubsetSize(FreeBits(a), FreeBits(b));
  }

  lemma SubsetSize(a: set<nat>, b: set<nat>)
    requires a <= b
    ensures |a| <= |b|
  {
    assert b == a + (b - a);
  }

  /** Past every set bit the first fit is where the search starts. */
  lemma FitAtMark(bits: seq<bool>, mark: nat, len: nat, r: nat)
    requires forall x | x in SetBits(bits) :: x < mark
    requires mark + len <= |bits| && 0 < len && FirstFit(bits, mark, len, r)
    ensures r == mark
  {
    assert forall i | mark <= i < mark + len :: i !in SetBits(bits) && bits[i] == (i in SetBits(bits));
    assert ClearRun(bits, mark, len);
  }

  /** The allocator's state as a value. */
  datatype Alloc = Alloc(bits: seq<bool>, nrFree: nat, unused: nat)

  /** get_free_blocks(len) gives bno. */
  ghost predicate Took(a: Alloc, len: nat, bno: nat, b: Alloc) {
    && |b.bits| == |a.bits| && b.nrFree == (a.nrFree - len) % U32
    && if bno == NO_BLOCK then b.bits == a.bits && b.unused == len - 1
       else && 1 <= bno && ClearRun(a.bits, bno, len) && SetBits(b.bits) == SetBits(a.bits) + Range(bno, len)
            && b.unused == if bno >= a.unused then (bno + len) % U32 else a.unused
  }

  /** get_offset(start, len) gives bno. */
  ghost predicate TookAt(a: Alloc, start: nat, len: nat, bno: nat, b: Alloc) {
    && |b.bits| == |a.bits| && b.nrFree == a.nrFree
    && if bno == NO_BLOCK then b == a
       else && start <= bno && ClearRun(a.bits, bno, len) && SetBits(b.bits) == SetBits(a.bits) + Range(bno, len)
            && b.unused == if bno >= a.unused then (bno + len) % U32 else a.unused
  }

  /** put_blocks(bno, len) */
  ghost predicate Gave(a: Alloc, bno: nat, len: nat, b: Alloc) {
    && |b.bits| == |a.bits| && b.unused == a.unused
    && if bno + len > |a.bits| + 1 then b == a
       else SetBits(b.bits) == SetBits(a.bits) - Range(bno, len) && b.nrFree == (a.nrFree + len) % U32
  }

  class Allocator {
    const bits: array<bool>
    /** s_nfree_blocks */
    var nrFree: nat
    /** s_unused_area */
    var unused: nat

    constructor (size: nat)
      requires 0 < size < U32
      ensures bits.Length == size && fresh(bits)
      ensures bits[..] == seq(size, i => i == 0)
      ensures nrFree == size - 1 && unused == 1
    {
      bits := new bool[size](i => i == 0);
      nrFree := size - 1;
      unused := 1;
      new;
      assert bits[..] == seq(size, i => i == 0);
    }

    ghost predicate Valid()
      reads this
    {
      0 < bits.Length < U32 && nrFree < U32 && unused < U32
    }

    ghost function Used(): set<nat>
      reads bits
    {
      SetBits(bits[..])
    }

    ghost function View(): Alloc
      reads this, bits
    {
      Alloc(bits[..], nrFree, unused)
    }

    ghost function Free(): set<nat>
      reads bits
    {
      FreeBits(bits[..])
    }

    /** bitmap_find_next_zero_area, to the contract its callers rely on. */
    method FindClear(start: nat, len: nat) returns (r: nat)
      requires 0 < len
      ensures FirstFit(bits[..], start, len, r)
    {
      r := start;
      while r + len <= bits.Length
        invariant start <= r
        invariant forall s | start <= s < r :: !ClearRun(bits[..], s, len)
        decreases bits.Length - r
      {
        var k := 0;
        while k < len && !bits[r + k]
          invariant 0 <= k <= len
          invariant forall i | r <= i < r + k :: !bits[i]
        {
          k := k + 1;
        }
        if k == len {
          return;
        }
        assert bits[..][r + k];
        r := r + 1;
      }
      r := if start <= bits.Length then bits.Length + len else start + len;
    }

    method SetRun(start: nat, len: nat, value: bool)
      requires start + len <= bits.Length
      modifies bits
      ensures forall i | 0 <= i < bits.Length :: bits[i] == if start <= i < start + len then value else old(bits[i])
    {
      for k := 0 to len
        invariant forall i | 0 <= i < bits.Length :: bits[i] == if start <= i < start + k then value else old(bits[i])
      {
        bits[start + k] := value;
      }
    }

    method IsRangeEmpty(start: nat, len: nat) returns (r: bool)
      requires 0 < len && start < bits.Length
      ensures r <==> ClearRun(bits[..], start, len)
    {
      var s := FindClear(start, len);
      r := s == start;
    }

    /** get_free_blocks. On failure the counters are changed all the same. */
    method GetFreeBlocks(len: nat) returns (bno: nat)
      requires Valid() && 0 < len < U32
      modifies this`nrFree, this`unused, bits
      ensures Valid() && Took(old(View()), len, bno, View())
      ensures nrFree == (old(nrFree) - len) % U32
      ensures bno != NO_BLOCK ==>
                && 1 <= bno && ClearRun(old(bits[..]), bno, len) && FirstFit(old(bits[..]), 1, len, bno)
                && Used() == old(Used()) + Range(bno, len) && old(Used()) !! Range(bno, len)
                && unused == if bno >= old(unused) then (bno + len) % U32 else old(unused)
      ensures bno == NO_BLOCK ==>
                && bits[..] == old(bits[..]) && unused == len - 1
                && forall s | 1 <= s < bits.Length :: !ClearRun(bits[..], s, len)
      ensures len == 1 ==> (bno == NO_BLOCK <==> old(Free()) == {})
      ensures len == 1 && bno != NO_BLOCK ==>
                && bno in old(Free()) && Free() == old(Free()) - {bno}
                && bno !in old(Used()) && Used() == old(Used()) + {bno}
    {
      var s := FindClear(1, len);
      if len == 1 {
        FreeHasFit(bits[..], s);
      }
      if s >= bits.Length {
        bno := NO_BLOCK;
      } else {
        SetRun(s, len, true);
        bno := s;
      }
      nrFree := (nrFree - len) % U32;
      if bno >= unused {
        unused := (bno + len) % U32;
      }
    }

    /** get_offset: like get_free_blocks from a given start, but the free count stays. */
    method GetOffset(start: nat, len: nat) returns (bno: nat)
      requires Valid() && 0 < len < U32
      modifies this`unused, bits
      ensures Valid() && TookAt(old(View()), start, len, bno, View())
      ensures bno != NO_BLOCK ==>
                && start <= bno && FirstFit(old(bits[..]), start, len, bno) && ClearRun(old(bits[..]), bno, len)
                && Used() == old(Used()) + Range(bno, len) && old(Used()) !! Range(bno, len)
                && unused == if bno >= old(unused) then (bno + len) % U32 else old(unused)
      ensures bno == NO_BLOCK ==>
                && bits[..] == old(bits[..]) && unused == old(unused)
                && forall s | start <= s < bits.Length :: !ClearRun(bits[..], s, len)
      ensures (forall x | x in old(Used()) :: x < start) && start + len <= bits.Length ==> bno == start
    {
      var s := FindClear(start, len);
      if (forall x | x in Used() :: x < start) && start + len <= bits.Length {
        FitAtMark(bits[..], start, len, s);
      }
      if s >= bits.Length {
        return NO_BLOCK;
      }
      SetRun(s, len, true);
      bno := s;
      if bno >= unused {
        unused := (bno + len) % U32;
      }
    }

    /** put_blocks. The range test lets one block past the end through: what there is of the
        run is released, and the count is one too high. Anything further out is ignored. */
    method PutBlocks(bno: nat, len: nat)
      requires Valid()
      modifies this`nrFree, bits
      ensures Valid() && Gave(old(View()), bno, len, View())
      ensures bno + len <= bits.Length + 1 ==>
                && Used() == old(Used()) - Range(bno, len)
                && nrFree == (old(nrFree) + len) % U32
      ensures bno + len <= bits.Length ==> Free() == old(Free()) + (Range(bno, len) - {0})
      ensures bno + len == bits.Length + 1 && 0 < len ==>
                Range(bno, len) == Range(bno, len - 1) + {bits.Length} && bits.Length !in old(Used())
      ensures len == 1 && bno < bits.Length ==> Used() == old(Used()) - {bno}
      ensures bno + len > bits.Length + 1 ==> bits[..] == old(bits[..]) && nrFree == old(nrFree)
    {
      if bno + len - 1 > bits.Length {
        return;
      }
      if bno < bits.Length {
        SetRun(bno, if bno + len <= bits.Length then len else len - 1, false);
      }
      nrFree := (nrFree + len) % U32;
    }
  }
}
