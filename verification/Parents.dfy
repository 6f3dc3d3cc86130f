/** The parent fields of the nodes of a tree, and what splitting a node on the way down does to
    them: the children that go to the new node keep naming the old one (btree.h:166-244). */
module Parents {
  import opened Entries
  import opened BTree
  import opened Room
  import opened Blocks

  ghost predicate ParentIs(d: Disk, b: nat, p: nat) { b in d && d[b].TreeBlock? && d[b].node.parent == p }

  /** Every node below the top one names the node it hangs off. */
  ghost predicate ParentsOk(d: Disk, loc: Loc)
    decreases loc
  {
    forall i | 0 <= i < |loc.kids| :: ParentIs(d, loc.kids[i].bno, loc.bno) && ParentsOk(d, loc.kids[i])
  }

  /** The blocks of s hold nodes, with the same parent fields. */
  ghost predicate KeepsParents(d: Disk, e: Disk, s: set<nat>) {
    forall b | b in s :: b in d && d[b].TreeBlock? && ParentIs(e, b, d[b].node.parent)
  }

  lemma KeepsTwice(d: Disk, e: Disk, f: Disk, s: set<nat>, s': set<nat>)
    requires KeepsParents(d, e, s) && KeepsParents(e, f, s') && s <= s'
    ensures KeepsParents(d, f, s)
  {
  }

  lemma KidBelow(loc: Loc, i: nat)
    requires i < |loc.kids|
    ensures loc.kids[i].bno in FootAll(loc.kids) && FootAll(loc.kids[i].kids) <= FootAll(loc.kids)
  {
    FootMember(loc.kids, i);
    assert loc.kids[i].bno in Foot(loc.kids[i]);
  }

  lemma {:induction false} ParentsSame(d: Disk, e: Disk, loc: Loc)
    requires KeepsParents(d, e, FootAll(loc.kids))
    ensures ParentsOk(d, loc) <==> ParentsOk(e, loc)
    decreases loc
  {
    forall i | 0 <= i < |loc.kids|
      ensures ParentsOk(d, loc.kids[i]) <==> ParentsOk(e, loc.kids[i])
      ensures ParentIs(d, loc.kids[i].bno, loc.bno) <==> ParentIs(e, loc.kids[i].bno, loc.bno)
    {
      KidBelow(loc, i);
      ParentsSame(d, e, loc.kids[i]);
    }
  }

  // ------------------------------------------------------- where nodes go

  /** The layout after splitting child i, the upper half going to block rhs. */
  function SplitLoc(t: nat, loc: Loc, i: nat, rhs: nat): Loc
    requires i < |loc.kids|
  {
    var c := loc.kids[i];
    Loc(loc.bno, loc.kids[..i] + [LowLoc(t, c), HighLoc(t, c, rhs)] + loc.kids[i + 1..])
  }

  function LowLoc(t: nat, c: Loc): Loc { Loc(c.bno, if |c.kids| < 2 * t then [] else c.kids[..t]) }

  function HighLoc(t: nat, c: Loc, rhs: nat): Loc { Loc(rhs, if |c.kids| < 2 * t then [] else c.kids[t..]) }

  function KidBnos(loc: Loc): set<nat> { set i | 0 <= i < |loc.kids| :: loc.kids[i].bno }

  /** Child j of a node was rewritten; it kept its block and its children, and may have got
      more of them. */
  ghost predicate KidRewritten(mid: Loc, loc': Loc, j: nat) {
    && j < |mid.kids| == |loc'.kids| && loc' == mid.(kids := mid.kids[j := loc'.kids[j]])
    && loc'.kids[j].bno == mid.kids[j].bno && KidBnos(mid.kids[j]) <= KidBnos(loc'.kids[j])
  }

  /** From loc to mid child i was split, the upper half going to rhs, or nothing was. */
  ghost predicate Opened(e: Disk, t: nat, loc: Loc, mid: Loc, i: nat, rhs: nat, split: bool) {
    && i < |loc.kids|
    && if !split then mid == loc
       else (loc.kids[i].kids == [] || |loc.kids[i].kids| == 2 * t)
            && mid == SplitLoc(t, loc, i, rhs) && rhs !in Foot(loc) && ParentIs(e, rhs, loc.bno)
  }

  /** A child names another node than the one it hangs off. */
  ghost predicate Estranged(e: Disk, loc: Loc, b: nat) { b in KidBnos(loc) && !ParentIs(e, b, loc.bno) }

  lemma EstrangedNotOk(e: Disk, loc: Loc, b: nat)
    requires Estranged(e, loc, b)
    ensures !ParentsOk(e, loc)
  {
  }

  lemma SplitKids(t: nat, loc: Loc, i: nat, rhs: nat, q: nat)
    requires i < |loc.kids| && q < |SplitLoc(t, loc, i, rhs).kids|
    ensures SplitLoc(t, loc, i, rhs).kids[q] == if q < i then loc.kids[q] else if q == i then LowLoc(t, loc.kids[i])
              else if q == i + 1 then HighLoc(t, loc.kids[i], rhs) else loc.kids[q - 1]
    ensures |SplitLoc(t, loc, i, rhs).kids| == |loc.kids| + 1
  {
  }

  /** A split leaf leaves all parent fields right, */
  lemma LeafSplitOk(d: Disk, e: Disk, t: nat, loc: Loc, mid: Loc, i: nat, rhs: nat)
    requires 1 <= t && Opened(e, t, loc, mid, i, rhs, true) && loc.kids[i].kids == []
    requires KeepsParents(d, e, FootAll(loc.kids)) && ParentsOk(d, loc)
    ensures ParentsOk(e, mid)
  {
    hide Foot, FootAll, LowLoc, HighLoc;
    ParentsSame(d, e, loc);
    LeafHalves(t, loc.kids[i], rhs);
    forall q | 0 <= q < |mid.kids|
      ensures ParentIs(e, mid.kids[q].bno, mid.bno) && ParentsOk(e, mid.kids[q])
    {
      SplitKids(t, loc, i, rhs, q);
    }
  }

  lemma LeafHalves(t: nat, c: Loc, rhs: nat)
    requires 1 <= t && c.kids == []
    ensures LowLoc(t, c) == Loc(c.bno, []) && HighLoc(t, c, rhs) == Loc(rhs, [])
  {
  }

  /** a split inner node leaves the children that moved with the wrong one. */
  lemma InnerSplitLost(d: Disk, e: Disk, t: nat, loc: Loc, mid: Loc, i: nat, rhs: nat)
    requires 1 <= t && Opened(e, t, loc, mid, i, rhs, true) && loc.kids[i].kids != []
    requires KeepsParents(d, e, FootAll(loc.kids)) && ParentsOk(d, loc)
    ensures i + 1 < |mid.kids| && Estranged(e, mid.kids[i + 1], loc.kids[i].kids[t].bno)
    ensures loc.kids[i].kids[t].bno in FootAll(loc.kids)
  {
    var c := loc.kids[i];
    SplitKids(t, loc, i, rhs, i + 1);
    var k := c.kids[t];
    assert c.kids[t..][0] == k && mid.kids[i + 1].kids[0] == k;
    KidBelow(loc, i);
    KidBelow(c, t);
    assert ParentIs(d, k.bno, c.bno) && ParentIs(e, k.bno, c.bno);
  }

  /** Other children are as they were. */
  lemma OtherKids(d: Disk, e: Disk, mid: Loc, loc': Loc, j: nat)
    requires KidRewritten(mid, loc', j) && KeepsParents(d, e, FootAll(mid.kids))
    ensures forall q | 0 <= q < |mid.kids| ::
              ParentIs(e, loc'.kids[q].bno, loc'.bno) <==> ParentIs(d, mid.kids[q].bno, mid.bno)
    ensures forall q | 0 <= q < |mid.kids| && q != j :: ParentsOk(e, loc'.kids[q]) <==> ParentsOk(d, mid.kids[q])
  {
    forall q | 0 <= q < |mid.kids|
      ensures ParentIs(e, loc'.kids[q].bno, loc'.bno) <==> ParentIs(d, mid.kids[q].bno, mid.bno)
      ensures q != j ==> (ParentsOk(e, loc'.kids[q]) <==> ParentsOk(d, mid.kids[q]))
    {
      KidBelow(mid, q);
      ParentsSame(d, e, mid.kids[q]);
    }
  }

  /** One level of an insertion: what was split on it, then what happened below. The parent
      fields are right afterwards exactly if no inner node was split. */
  lemma InsertLevel(d: Disk, m: Disk, e: Disk, t: nat, loc: Loc, mid: Loc, loc': Loc, i: nat, j: nat, rhs: nat,
                    split: bool, inner: bool)
    requires 1 <= t && Opened(m, t, loc, mid, i, rhs, split) && ParentsOk(d, loc)
    requires KeepsParents(d, m, FootAll(loc.kids)) && KeepsParents(m, e, FootAll(mid.kids))
    requires KidRewritten(mid, loc', j) && FootAll(loc.kids) <= FootAll(mid.kids)
    requires ParentsOk(m, mid.kids[j]) ==> (ParentsOk(e, loc'.kids[j]) <==> !inner)
    ensures ParentsOk(e, loc') <==> !(split && loc.kids[i].kids != []) && !inner
  {
    hide Foot, FootAll, SplitLoc, KeepsParents;
    OtherKids(m, e, mid, loc', j);
    if split && loc.kids[i].kids != [] {
      InnerSplitLost(d, m, t, loc, mid, i, rhs);
      var b := loc.kids[i].kids[t].bno;
      StaysEstranged(m, e, mid, loc', j, i + 1, b);
      EstrangedNotOk(e, loc'.kids[i + 1], b);
    } else {
      if split { LeafSplitOk(d, m, t, loc, mid, i, rhs); } else { ParentsSame(d, m, loc); }
      assert ParentsOk(m, mid);
    }
  }

  lemma StaysEstranged(m: Disk, e: Disk, mid: Loc, loc': Loc, j: nat, q: nat, b: nat)
    requires KidRewritten(mid, loc', j) && KeepsParents(m, e, FootAll(mid.kids)) && b in FootAll(mid.kids)
    requires q < |mid.kids| && Estranged(m, mid.kids[q], b)
    ensures Estranged(e, loc'.kids[q], b)
  {
  }

  /** The insertion splits an inner node on its way down. */
  ghost predicate SplitsInner(t: nat, tr: Tree, h: nat, e: Entry)
    requires 2 <= t && Shape(t, tr, h) && |tr.keys| < 2 * t - 1
    decreases h
  {
    h > 0 && ((h > 1 && SplitsKid(t, tr, e)) || SplitsInner(t, Reached(t, tr, h, e), h - 1, e))
  }

  /** ... counting the root, which is split when it is full. */
  ghost predicate InsertSplitsInner(t: nat, tr: Tree, h: nat, e: Entry)
    requires 2 <= t && Shape(t, tr, h)
  {
    if |tr.keys| == 2 * t - 1 then SplitsInner(t, Node([], [tr]), h + 1, e) else SplitsInner(t, tr, h, e)
  }

  /** The same with m free blocks. */
  ghost predicate TriedInner(t: nat, tr: Tree, h: nat, e: Entry, m: nat)
    requires 2 <= t && Shape(t, tr, h) && |tr.keys| < 2 * t - 1
    decreases h
  {
    h > 0 && !Refused(t, tr, h, e, m) &&
    ((h > 1 && SplitsKid(t, tr, e)) || TriedInner(t, Reached(t, tr, h, e), h - 1, e, Rest(t, tr, e, m)))
  }

  ghost predicate InsertTriedInner(t: nat, tr: Tree, h: nat, e: Entry, m: nat)
    requires 2 <= t && Shape(t, tr, h)
  {
    if |tr.keys| == 2 * t - 1 then 0 < m && TriedInner(t, Node([], [tr]), h + 1, e, m - 1)
    else TriedInner(t, tr, h, e, m)
  }

  lemma InnerLevel(t: nat, tr: Tree, h: nat, e: Entry, m: nat)
    requires 2 <= t && 0 < h && Shape(t, tr, h) && |tr.keys| < 2 * t - 1 && !Refused(t, tr, h, e, m)
    ensures |tr.kids| == |tr.keys| + 1
    ensures TriedInner(t, tr, h, e, m) <==>
            (1 < h && SplitsKid(t, tr, e)) || TriedInner(t, Reached(t, tr, h, e), h - 1, e, Rest(t, tr, e, m))
  {
  }

  lemma {:induction false} InnerFits(t: nat, tr: Tree, h: nat, e: Entry, m: nat)
    requires 2 <= t && Shape(t, tr, h) && |tr.keys| < 2 * t - 1 && Splits(t, tr, h, e) <= m
    ensures TriedInner(t, tr, h, e, m) <==> SplitsInner(t, tr, h, e)
    decreases h
  {
    hide Shape, Reached, Splits;
    if h > 0 {
      hide SplitsKid;
      OneSplit(t, tr, h, e);
      TriedFits(t, tr, h, e, m);
      hide Refused;
      InnerLevel(t, tr, h, e, m);
      InnerFits(t, Reached(t, tr, h, e), h - 1, e, Rest(t, tr, e, m));
    }
  }

  lemma RoomInner(t: nat, tr: Tree, h: nat, e: Entry, m: nat)
    requires 2 <= t && Shape(t, tr, h) && RoomFor(t, tr, h, e) <= m
    ensures InsertTriedInner(t, tr, h, e, m) <==> InsertSplitsInner(t, tr, h, e)
  {
    hide Splits, SplitsInner, TriedInner;
    if |tr.keys| == 2 * t - 1 {
      GrownShape(t, tr, h);
      InnerFits(t, Node([], [tr]), h + 1, e, m - 1);
    } else {
      InnerFits(t, tr, h, e, m);
    }
  }

  /** Splitting child i: right afterwards exactly if the child is a leaf. */
  lemma SplitParentsExact(d: Disk, e: Disk, t: nat, loc: Loc, mid: Loc, i: nat, rhs: nat)
    requires 1 <= t && Opened(e, t, loc, mid, i, rhs, true)
    requires KeepsParents(d, e, FootAll(loc.kids)) && ParentsOk(d, loc)
    ensures ParentsOk(e, mid) <==> loc.kids[i].kids == []
  {
    hide FootAll, SplitLoc, KeepsParents;
    if loc.kids[i].kids == [] {
      LeafSplitOk(d, e, t, loc, mid, i, rhs);
    } else {
      InnerSplitLost(d, e, t, loc, mid, i, rhs);
      EstrangedNotOk(e, mid.kids[i + 1], loc.kids[i].kids[t].bno);
    }
  }

  lemma OpenedKids(e: Disk, t: nat, loc: Loc, mid: Loc, i: nat, rhs: nat, split: bool)
    requires Opened(e, t, loc, mid, i, rhs, split)
    ensures KidBnos(loc) <= KidBnos(mid)
  {
    if split {
      forall q | 0 <= q < |loc.kids|
        ensures loc.kids[q].bno in KidBnos(mid)
      {
        SplitKids(t, loc, i, rhs, if q <= i then q else q + 1);
      }
    }
  }
}
