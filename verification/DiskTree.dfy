/** The B-tree on disk (btree.h): every routine works on fixed-slot node blocks and is
    proved to carry out the tree operation of the same name, to use and give back exactly
    the blocks that takes, and to leave every other allocated block alone. */
module DiskTree {
  import opened Entries
  import opened BTree
  import opened BTreeDelete
  import opened BTreeRuns
  import opened Room
  import opened Blocks
  import opened SlotLoops
  import opened StaleSlots
  import opened Bitmap
  import opened Parents

  // ---------------------------------------------------------- where nodes go

  lemma SplitApart(t: nat, loc: Loc, i: nat, rhs: nat)
    requires i < |loc.kids| && Apart(loc) && rhs !in Foot(loc)
    requires |loc.kids[i].kids| == 0 || |loc.kids[i].kids| == 2 * t
    ensures Apart(SplitLoc(t, loc, i, rhs)) && Foot(SplitLoc(t, loc, i, rhs)) == Foot(loc) + {rhs}
    ensures Foot(LowLoc(t, loc.kids[i])) + Foot(HighLoc(t, loc.kids[i], rhs)) == Foot(loc.kids[i]) + {rhs}
  {
    var c := loc.kids[i];
    var lo, hi := LowLoc(t, c), HighLoc(t, c, rhs);
    hide FootAll, ApartAll;
    FootAt(loc, i);
    assert c.kids == lo.kids + hi.kids;
    FootAppend(lo.kids, hi.kids);
    ApartAppend(lo.kids, hi.kids);
    FootTwo(lo, hi);
    FootOne(c);
    assert loc.kids[i..i + 1] == [c];
    ReplaceRun(loc, i, 1, [lo, hi], {rhs});
  }

  /** Replacing a run of children by other subtrees on the same blocks and some new ones. */
  lemma ReplaceRun(loc: Loc, i: nat, n: nat, m: seq<Loc>, extra: set<nat>)
    requires i + n <= |loc.kids| && Apart(loc) && ApartAll(m)
    requires FootAll(m) <= FootAll(loc.kids[i..i + n]) + extra && extra !! Foot(loc)
    ensures var r := Loc(loc.bno, loc.kids[..i] + m + loc.kids[i + n..]);
            && Apart(r) && Foot(r) == Foot(loc) - FootAll(loc.kids[i..i + n]) + FootAll(m)
  {
    hide FootAll, ApartAll;
    var a, b, old_ := loc.kids[..i], loc.kids[i + n..], loc.kids[i..i + n];
    assert loc.kids == a + (old_ + b) && a + m + b == a + (m + b);
    FootAppend(a, old_ + b);
    FootAppend(old_, b);
    ApartAppend(a, old_ + b);
    ApartAppend(old_, b);
    FootAppend(a, m + b);
    FootAppend(m, b);
    ApartAppend(a, m + b);
    ApartAppend(m, b);
  }

  /** Children other than the ones a routine touched still represent what they did. */
  lemma RepRest(d: Disk, e: Disk, t: nat, loc: Loc, tr: Tree, i: nat, n: nat, touched: set<nat>)
    requires Rep(d, t, loc, tr) && Apart(loc) && i + n <= |loc.kids|
    requires touched <= {loc.bno} + FootAll(loc.kids[i..i + n])
    requires Agree(d, e, Foot(loc) - touched)
    ensures RepAll(e, t, loc.kids[..i], tr.kids[..i]) && RepAll(e, t, loc.kids[i + n..], tr.kids[i + n..])
  {
    hide FootAll, ApartAll, Rep;
    var a, m, b := loc.kids[..i], loc.kids[i..i + n], loc.kids[i + n..];
    assert loc.kids == a + (m + b);
    FootAppend(a, m + b);
    FootAppend(m, b);
    ApartAppend(a, m + b);
    ApartAppend(m, b);
    RepParts(d, t, loc, tr);
    RepAllFrame(d, e, t, a, tr.kids[..i]);
    RepAllFrame(d, e, t, b, tr.kids[i + n..]);
  }

  lemma RepParts(d: Disk, t: nat, loc: Loc, tr: Tree)
    requires Rep(d, t, loc, tr)
    ensures loc.bno in d && d[loc.bno].TreeBlock? && Holds(t, d[loc.bno].node, loc, tr)
    ensures |loc.kids| == |tr.kids|
    ensures forall i | 0 <= i < |tr.kids| :: Rep(d, t, loc.kids[i], tr.kids[i])
  {
  }

  lemma RepAssemble(d: Disk, t: nat, loc: Loc, tr: Tree, a: seq<Loc>, ta: seq<Tree>, m: seq<Loc>, tm: seq<Tree>,
                    b: seq<Loc>, tb: seq<Tree>)
    requires loc.kids == a + m + b && tr.kids == ta + tm + tb
    requires loc.bno in d && d[loc.bno].TreeBlock? && Holds(t, d[loc.bno].node, loc, tr)
    requires RepAll(d, t, a, ta) && RepAll(d, t, m, tm) && RepAll(d, t, b, tb)
    ensures Rep(d, t, loc, tr)
  {
    forall i | 0 <= i < |tr.kids|
      ensures Rep(d, t, loc.kids[i], tr.kids[i])
    {
      if i < |a| {
        assert loc.kids[i] == a[i] && tr.kids[i] == ta[i];
      } else if i < |a| + |m| {
        assert loc.kids[i] == m[i - |a|] && tr.kids[i] == tm[i - |a|];
      } else {
        assert loc.kids[i] == b[i - |a| - |m|] && tr.kids[i] == tb[i - |a| - |m|];
      }
    }
  }

  /** What a routine may rely on when it reads a node. */
  lemma NodeOf(d: Disk, t: nat, loc: Loc, tr: Tree)
    requires Rep(d, t, loc, tr)
    ensures loc.bno in d && d[loc.bno].TreeBlock? && |loc.kids| == |tr.kids|
    ensures var n := d[loc.bno].node;
            && Holds(t, n, loc, tr) && 1 <= t && |n.entries| == 2 * t - 1 && |n.children| == 2 * t
            && n.nrOfKeys == |tr.keys| <= 2 * t - 1 && n.entries[..n.nrOfKeys] == tr.keys
            && n.leaf == (tr.kids == []) && (!n.leaf ==> |tr.kids| == |tr.keys| + 1)
            && forall i | 0 <= i < |tr.kids| :: n.children[i] == loc.kids[i].bno && Rep(d, t, loc.kids[i], tr.kids[i])
  {
  }

  lemma HoldsLow(t: nat, n: BNode, c: Loc, tc: Tree)
    requires 2 <= t && Holds(t, n, c, tc) && |tc.keys| == 2 * t - 1
    ensures Holds(t, n.(nrOfKeys := t - 1), LowLoc(t, c), LowHalf(t, tc))
  {
  }

  lemma HoldsHigh(t: nat, n: BNode, c: Loc, tc: Tree, r: BNode, rhs: nat)
    requires 2 <= t && Holds(t, n, c, tc) && |tc.keys| == 2 * t - 1
    requires |r.entries| == 2 * t - 1 && |r.children| == 2 * t && r.nrOfKeys == t - 1 && r.leaf == n.leaf
    requires forall k {:trigger r.entries[k]} | 0 <= k < t - 1 :: r.entries[k] == n.entries[t + k]
    requires !n.leaf ==> forall k {:trigger r.children[k]} | 0 <= k < t :: r.children[k] == n.children[t + k]
    ensures Holds(t, r, HighLoc(t, c, rhs), HighHalf(t, tc))
  {
  }

  lemma HoldsSplit(t: nat, n: BNode, loc: Loc, tr: Tree, r: BNode, i: nat, rhs: nat)
    requires 2 <= t && Holds(t, n, loc, tr) && |tr.keys| < 2 * t - 1 && i < |tr.kids| && |tr.kids[i].keys| == 2 * t - 1
    requires |r.entries| == 2 * t - 1 && |r.children| == 2 * t && r.nrOfKeys == n.nrOfKeys + 1 && r.leaf == n.leaf
    requires forall k {:trigger r.entries[k]} | 0 <= k <= n.nrOfKeys ::
      r.entries[k] == if k < i then n.entries[k] else if k == i then tr.kids[i].keys[t - 1] else n.entries[k - 1]
    requires forall k {:trigger r.children[k]} | 0 <= k <= n.nrOfKeys + 1 ::
      r.children[k] == if k <= i then n.children[k] else if k == i + 1 then rhs else n.children[k - 1]
    ensures Holds(t, r, SplitLoc(t, loc, i, rhs), SplitChild(t, tr, i))
  {
    var s := SplitChild(t, tr, i);
    assert forall k | 0 <= k < |tr.keys| :: n.entries[k] == tr.keys[k];
    assert r.entries[..r.nrOfKeys] == s.keys;
  }

  /** The three rewritten nodes of a split make the split tree. */
  lemma RepSplit(d: Disk, e: Disk, t: nat, loc: Loc, tr: Tree, h: nat, i: nat, rhs: nat)
    requires 2 <= t && 0 < h && Shape(t, tr, h) && Rep(d, t, loc, tr) && Apart(loc) && rhs !in Foot(loc)
    requires i < |tr.kids| && |tr.kids[i].keys| == 2 * t - 1 && |loc.kids| == |tr.kids|
    requires Agree(d, e, Foot(loc) - {loc.bno, loc.kids[i].bno})
    requires loc.bno in e && e[loc.bno].TreeBlock?
    requires Holds(t, e[loc.bno].node, SplitLoc(t, loc, i, rhs), SplitChild(t, tr, i))
    requires loc.kids[i].bno in e && e[loc.kids[i].bno].TreeBlock?
    requires Holds(t, e[loc.kids[i].bno].node, LowLoc(t, loc.kids[i]), LowHalf(t, tr.kids[i]))
    requires rhs in e && e[rhs].TreeBlock?
    requires Holds(t, e[rhs].node, HighLoc(t, loc.kids[i], rhs), HighHalf(t, tr.kids[i]))
    ensures Rep(e, t, SplitLoc(t, loc, i, rhs), SplitChild(t, tr, i))
  {
    hide FootAll, ApartAll, Shape;
    var c, tc := loc.kids[i], tr.kids[i];
    var lo, hi := LowLoc(t, c), HighLoc(t, c, rhs);
    RepParts(d, t, loc, tr);
    RepParts(d, t, c, tc);
    FootAt(loc, i);
    FootOne(c);
    assert loc.kids[i..i + 1] == [c];
    RepRest(d, e, t, loc, tr, i, 1, {loc.bno, c.bno});
    RepAllFrame(d, e, t, c.kids, tc.kids);
    assert RepAll(e, t, lo.kids, LowHalf(t, tc).kids);
    assert RepAll(e, t, hi.kids, HighHalf(t, tc).kids);
    RepAssemble(e, t, SplitLoc(t, loc, i, rhs), SplitChild(t, tr, i),
                loc.kids[..i], tr.kids[..i], [lo, hi], [LowHalf(t, tc), HighHalf(t, tc)],
                loc.kids[i + 1..], tr.kids[i + 1..]);
  }

  /** A split leaves the upper keys behind in the lower half, where no search can reach them. */
  lemma CleanSplit(d: Disk, e: Disk, t: nat, loc: Loc, tr: Tree, h: nat, i: nat, rhs: nat, hi: nat)
    requires 2 <= t && 0 < h && Shape(t, tr, h) && Rep(d, t, loc, tr) && Apart(loc) && |tr.keys| < 2 * t - 1
    requires i < |tr.kids| && |tr.kids[i].keys| == 2 * t - 1 && |loc.kids| == |tr.kids|
    requires Clean(d, loc, tr, hi) && Sorted(Flat(tr)) && Agree(d, e, Foot(loc) - {loc.bno, loc.kids[i].bno})
    requires SplitSlots(d, e, t, loc.bno, loc.kids[i].bno, rhs, |tr.keys|)
    ensures Clean(e, SplitLoc(t, loc, i, rhs), SplitChild(t, tr, i), hi)
  {
    hide Clean, Shape, Rep, Apart, FootAll, SplitChild, SplitLoc, SlotsClean, Sorted, Flat, LowHalf, HighHalf, LowLoc,
         HighLoc;
    ShapeKids(t, tr, h);
    var l, r := SplitLoc(t, loc, i, rhs), SplitChild(t, tr, i);
    CleanKid(d, loc, tr, hi, i);
    CleanHalves(d, e, t, loc, tr, h, i, rhs, hi);
    SplitCounts(t, loc, tr, i, rhs);
    forall q | 0 <= q < |r.kids|
      ensures Clean(e, l.kids[q], r.kids[q], Bound(r, q, hi))
    {
      SplitKid(t, loc, tr, i, rhs, q, hi);
      if q < i { CleanOther(d, e, loc, tr, hi, q, i); } else if q > i + 1 { CleanOther(d, e, loc, tr, hi, q - 1, i); }
    }
    CleanTop(d, e, t, loc, tr, i, rhs, hi);
  }

  /** The slots of the three nodes of a split that are not in use afterwards. */
  ghost predicate SplitSlots(d: Disk, e: Disk, t: nat, par: nat, lhs: nat, rhs: nat, n: nat) {
    && par in d && d[par].TreeBlock? && par in e && e[par].TreeBlock? && |e[par].node.entries| == |d[par].node.entries|
    && (forall k {:trigger e[par].node.entries[k]} | n < k < |d[par].node.entries| ::
          e[par].node.entries[k] == d[par].node.entries[k])
    && lhs in d && d[lhs].TreeBlock? && lhs in e && e[lhs].TreeBlock? && e[lhs].node.entries == d[lhs].node.entries
    && rhs in e && e[rhs].TreeBlock?
    && forall k | 0 <= k < |e[rhs].node.entries| && t - 1 <= k :: e[rhs].node.entries[k] == ZERO_ENTRY
  }

  lemma SplitCounts(t: nat, loc: Loc, tr: Tree, i: nat, rhs: nat)
    requires 1 <= t && i < |tr.kids| == |tr.keys| + 1 == |loc.kids| && |tr.kids[i].keys| == 2 * t - 1
    ensures |SplitLoc(t, loc, i, rhs).kids| == |SplitChild(t, tr, i).kids| == |tr.kids| + 1
  {
  }

  /** Child q of a split tree. */
  lemma SplitKid(t: nat, loc: Loc, tr: Tree, i: nat, rhs: nat, q: nat, hi: nat)
    requires 1 <= t && i < |tr.kids| == |tr.keys| + 1 == |loc.kids| && |tr.kids[i].keys| == 2 * t - 1
    requires q < |SplitChild(t, tr, i).kids|
    ensures var l, r := SplitLoc(t, loc, i, rhs), SplitChild(t, tr, i);
            && |l.kids| == |r.kids|
            && (q < i ==> l.kids[q] == loc.kids[q] && r.kids[q] == tr.kids[q] && Bound(r, q, hi) == Bound(tr, q, hi))
            && (q == i ==> l.kids[q] == LowLoc(t, loc.kids[i]) && r.kids[q] == LowHalf(t, tr.kids[i])
                           && Bound(r, q, hi) == tr.kids[i].keys[t - 1].hash)
            && (q == i + 1 ==> l.kids[q] == HighLoc(t, loc.kids[i], rhs) && r.kids[q] == HighHalf(t, tr.kids[i])
                               && Bound(r, q, hi) == Bound(tr, i, hi))
            && (q > i + 1 ==>
                  && l.kids[q] == loc.kids[q - 1] && r.kids[q] == tr.kids[q - 1]
                  && Bound(r, q, hi) == Bound(tr, q - 1, hi))
  {
    hide LowHalf, HighHalf, LowLoc, HighLoc;
  }

  lemma CleanOther(d: Disk, e: Disk, loc: Loc, tr: Tree, hi: nat, q: nat, i: nat)
    requires Clean(d, loc, tr, hi) && Apart(loc) && q < |tr.kids| && i < |tr.kids| && q != i && |loc.kids| == |tr.kids|
    requires Agree(d, e, Foot(loc) - {loc.bno, loc.kids[i].bno})
    ensures Clean(e, loc.kids[q], tr.kids[q], Bound(tr, q, hi))
  {
    hide FootAll, ApartAll;
    CleanKid(d, loc, tr, hi, q);
    KidsApart(loc, q, i);
    CleanFrame(d, e, loc.kids[q], tr.kids[q], Bound(tr, q, hi));
  }

  lemma CleanTop(d: Disk, e: Disk, t: nat, loc: Loc, tr: Tree, i: nat, rhs: nat, hi: nat)
    requires 1 <= t && i < |tr.kids| == |tr.keys| + 1 == |loc.kids| && |tr.kids[i].keys| == 2 * t - 1
    requires Clean(d, loc, tr, hi) && SplitSlots(d, e, t, loc.bno, loc.kids[i].bno, rhs, |tr.keys|)
    requires var l, r := SplitLoc(t, loc, i, rhs), SplitChild(t, tr, i);
             |l.kids| == |r.kids| && forall q | 0 <= q < |r.kids| :: Clean(e, l.kids[q], r.kids[q], Bound(r, q, hi))
    ensures Clean(e, SplitLoc(t, loc, i, rhs), SplitChild(t, tr, i), hi)
  {
    hide LowHalf, HighHalf, LowLoc, HighLoc;
  }

  /** Both halves of the split child. */
  lemma CleanHalves(d: Disk, e: Disk, t: nat, loc: Loc, tr: Tree, h: nat, i: nat, rhs: nat, hi: nat)
    requires 2 <= t && 0 < h && Shape(t, tr, h) && Rep(d, t, loc, tr) && Apart(loc)
    requires i < |tr.kids| && |tr.kids[i].keys| == 2 * t - 1 && |loc.kids| == |tr.kids|
    requires Clean(d, loc, tr, hi) && Sorted(Flat(tr)) && Agree(d, e, Foot(loc) - {loc.bno, loc.kids[i].bno})
    requires SplitSlots(d, e, t, loc.bno, loc.kids[i].bno, rhs, |tr.keys|)
    ensures Clean(e, LowLoc(t, loc.kids[i]), LowHalf(t, tr.kids[i]), tr.kids[i].keys[t - 1].hash)
    ensures Clean(e, HighLoc(t, loc.kids[i], rhs), HighHalf(t, tr.kids[i]), Bound(tr, i, hi))
  {
    hide Shape, Rep, Apart, FootAll, SlotsClean, Sorted, Flat, Clean;
    var c, tc, b := loc.kids[i], tr.kids[i], Bound(tr, i, hi);
    ShapeKids(t, tr, h);
    ShapeKids(t, tc, h - 1);
    CleanKid(d, loc, tr, hi, i);
    NodeOf(d, t, loc, tr);
    NodeOf(d, t, c, tc);
    FootAt(loc, i);
    KeysUp(tr, i);
    forall m | 0 <= m < |tc.kids|
      ensures Clean(e, c.kids[m], tc.kids[m], Bound(tc, m, b))
    {
      CleanKid(d, c, tc, b, m);
      FootAt(c, m);
      CleanFrame(d, e, c.kids[m], tc.kids[m], Bound(tc, m, b));
    }
    CleanHalfTops(d, e, t, c, tc, rhs, b);
  }

  /** The keys of child i are in order. */
  lemma KeysUp(tr: Tree, i: nat)
    requires |tr.kids| == |tr.keys| + 1 && i < |tr.kids| && Sorted(Flat(tr))
    requires tr.kids[i].kids == [] || |tr.kids[i].kids| == |tr.kids[i].keys| + 1
    ensures forall j, k | 0 <= j <= k < |tr.kids[i].keys| :: tr.kids[i].keys[j].hash <= tr.kids[i].keys[k].hash
  {
    hide Flat;
    var c := tr.kids[i];
    FlatAt(tr, i);
    SortedSplit(Before(tr, i), Flat(c), After(tr, i));
    if c.kids == [] {
      LeafFlat(c);
    } else {
      KeysSorted(c);
      StepsUp(c.keys);
    }
  }

  lemma {:induction false} StepsUp(keys: seq<Entry>)
    requires forall i | 0 < i < |keys| :: keys[i - 1].hash < keys[i].hash
    ensures forall j, k | 0 <= j <= k < |keys| :: keys[j].hash <= keys[k].hash
  {
    if keys != [] {
      var front := keys[..|keys| - 1];
      StepsUp(front);
      forall j, k | 0 <= j <= k < |keys|
        ensures keys[j].hash <= keys[k].hash
      {
        if k < |front| {
          assert front[j].hash <= front[k].hash;
        } else if j < |front| {
          assert front[j].hash <= front[|front| - 1].hash;
        }
      }
    }
  }

  lemma CleanHalfTops(d: Disk, e: Disk, t: nat, c: Loc, tc: Tree, rhs: nat, b: nat)
    requires 2 <= t && |tc.keys| == 2 * t - 1 && (tc.kids == [] || |tc.kids| == 2 * t) && |c.kids| == |tc.kids|
    requires c.bno in d && d[c.bno].TreeBlock? && |d[c.bno].node.entries| == 2 * t - 1
             && d[c.bno].node.entries[..2 * t - 1] == tc.keys
    requires c.bno in e && e[c.bno].TreeBlock? && e[c.bno].node.entries == d[c.bno].node.entries
    requires rhs in e && e[rhs].TreeBlock?
             && forall k | t - 1 <= k < |e[rhs].node.entries| :: e[rhs].node.entries[k] == ZERO_ENTRY
    requires forall j, k | 0 <= j <= k < |tc.keys| :: tc.keys[j].hash <= tc.keys[k].hash
    requires forall m | 0 <= m < |tc.kids| :: Clean(e, c.kids[m], tc.kids[m], Bound(tc, m, b))
    ensures Clean(e, LowLoc(t, c), LowHalf(t, tc), tc.keys[t - 1].hash)
    ensures Clean(e, HighLoc(t, c, rhs), HighHalf(t, tc), b)
  {
    var lo, tlo, mid := LowLoc(t, c), LowHalf(t, tc), tc.keys[t - 1].hash;
    assert forall k | 0 <= k < 2 * t - 1 :: d[c.bno].node.entries[k] == tc.keys[k];
    forall m | 0 <= m < |tlo.kids|
      ensures Clean(e, lo.kids[m], tlo.kids[m], Bound(tlo, m, mid))
    {
      assert Bound(tlo, m, mid) == Bound(tc, m, b);
    }
    var up, tup := HighLoc(t, c, rhs), HighHalf(t, tc);
    forall m | 0 <= m < |tup.kids|
      ensures Clean(e, up.kids[m], tup.kids[m], Bound(tup, m, b))
    {
      assert Bound(tup, m, b) == Bound(tc, t + m, b) && tup.kids[m] == tc.kids[t + m] && up.kids[m] == c.kids[t + m];
    }
  }

  /** A subtree rewritten in place at child i. */
  lemma RepReplace(d: Disk, e: Disk, t: nat, loc: Loc, tr: Tree, i: nat, c: Loc, tc: Tree)
    requires Rep(d, t, loc, tr) && Apart(loc) && i < |tr.kids| && i < |loc.kids|
    requires c.bno == loc.kids[i].bno && Rep(e, t, c, tc) && Agree(d, e, FootRest(loc, i))
    ensures Rep(e, t, loc.(kids := loc.kids[i := c]), Node(tr.keys, tr.kids[i := tc]))
  {
    hide FootAll, ApartAll, Rep, Holds;
    NodeOf(d, t, loc, tr);
    var l, r := loc.(kids := loc.kids[i := c]), Node(tr.keys, tr.kids[i := tc]);
    RepAllFrame(d, e, t, loc.kids[..i], tr.kids[..i]);
    RepAllFrame(d, e, t, loc.kids[i + 1..], tr.kids[i + 1..]);
    HoldsReplace(t, e[loc.bno].node, loc, tr, i, c, tc);
    assert loc.kids[i := c] == loc.kids[..i] + [c] + loc.kids[i + 1..];
    assert tr.kids[i := tc] == tr.kids[..i] + [tc] + tr.kids[i + 1..];
    RepAssemble(e, t, l, r, loc.kids[..i], tr.kids[..i], [c], [tc], loc.kids[i + 1..], tr.kids[i + 1..]);
  }

  lemma HoldsReplace(t: nat, n: BNode, loc: Loc, tr: Tree, i: nat, c: Loc, tc: Tree)
    requires Holds(t, n, loc, tr) && i < |tr.kids| && c.bno == loc.kids[i].bno
    ensures Holds(t, n, loc.(kids := loc.kids[i := c]), Node(tr.keys, tr.kids[i := tc]))
  {
  }

  lemma HoldsLeafInsert(t: nat, n: BNode, loc: Loc, tr: Tree, es: seq<Entry>, i: nat, e: Entry)
    requires Holds(t, n, loc, tr) && tr.kids == [] && n.nrOfKeys < 2 * t - 1 && i <= n.nrOfKeys && |es| == |n.entries|
    requires forall k {:trigger es[k]} | 0 <= k <= n.nrOfKeys ::
      es[k] == if k < i then n.entries[k] else if k == i then e else n.entries[k - 1]
    ensures Holds(t, n.(entries := es, nrOfKeys := n.nrOfKeys + 1), loc, Node(tr.keys[..i] + [e] + tr.keys[i..], []))
  {
    assert forall k | 0 <= k < |tr.keys| :: n.entries[k] == tr.keys[k];
    assert es[..n.nrOfKeys + 1] == tr.keys[..i] + [e] + tr.keys[i..];
  }

  /** while (index >= 0 && entries[index].hash > hash) { entries[index + 1] = entries[index]; index--; } */
  method MakeRoom(es: seq<Entry>, n: nat, h: nat) returns (r: seq<Entry>, i: nat)
    requires n < |es|
    ensures i == InsertPos(es[..n], h) && |r| == |es|
    ensures forall k {:trigger r[k]} | 0 <= k < |es| :: r[k] == if i < k <= n then es[k - 1] else es[k]
  {
    r := es;
    i := n;
    while i > 0 && r[i - 1].hash > h
      invariant 0 <= i <= n && |r| == |es|
      invariant forall k | i <= k < n :: es[k].hash > h
      invariant forall k {:trigger r[k]} | 0 <= k < |es| :: r[k] == if i < k <= n then es[k - 1] else es[k]
    {
      r := r[i := r[i - 1]];
      i := i - 1;
    }
    InsertPosUnique(es[..n], h, i);
  }

  /** The same scan without moving anything. */
  method ScanDown(es: seq<Entry>, n: nat, h: nat) returns (i: nat)
    requires n <= |es|
    ensures i == InsertPos(es[..n], h)
  {
    i := n;
    while i > 0 && es[i - 1].hash > h
      invariant 0 <= i <= n
      invariant forall k | i <= k < n :: es[k].hash > h
    {
      i := i - 1;
    }
    InsertPosUnique(es[..n], h, i);
  }

  lemma InsertPosUnique(keys: seq<Entry>, h: nat, i: nat)
    requires i <= |keys| && (i == 0 || keys[i - 1].hash <= h) && forall k | i <= k < |keys| :: keys[k].hash > h
    ensures i == InsertPos(keys, h)
  {
  }

  /** The loops of basicbtfs_btree_split_child: the new right node and the rewritten parent. */
  method SplitNodes(t: nat, nodePar: BNode, nodeLhs: BNode, index: nat, par: nat, rhs: nat)
    returns (newPar: BNode, nodeRhs: BNode)
    requires 2 <= t && |nodeLhs.entries| == |nodePar.entries| == 2 * t - 1
             && |nodeLhs.children| == |nodePar.children| == 2 * t
    requires index <= nodePar.nrOfKeys < 2 * t - 1
    ensures newPar == nodePar.(children := newPar.children, entries := newPar.entries, nrOfKeys := nodePar.nrOfKeys + 1)
    ensures |newPar.entries| == 2 * t - 1 && |newPar.children| == 2 * t
    ensures forall k {:trigger newPar.entries[k]} | 0 <= k < 2 * t - 1 :: newPar.entries[k] ==
              if k < index || nodePar.nrOfKeys < k then nodePar.entries[k]
              else if k == index then nodeLhs.entries[t - 1] else nodePar.entries[k - 1]
    ensures forall k {:trigger newPar.children[k]} | 0 <= k <= nodePar.nrOfKeys + 1 :: newPar.children[k] ==
              if k <= index then nodePar.children[k] else if k == index + 1 then rhs else nodePar.children[k - 1]
    ensures nodeRhs.parent == par && !nodeRhs.root && nodeRhs.treeName == 0 && nodeRhs.nrOfFiles == 0
    ensures nodeRhs.leaf == nodeLhs.leaf && nodeRhs.nrOfKeys == t - 1 && |nodeRhs.entries| == 2 * t - 1
            && |nodeRhs.children| == 2 * t
    ensures forall k {:trigger nodeRhs.entries[k]} | 0 <= k < 2 * t - 1 ::
              nodeRhs.entries[k] == if k < t - 1 then nodeLhs.entries[t + k] else ZERO_ENTRY
    ensures !nodeLhs.leaf ==>
              forall k {:trigger nodeRhs.children[k]} | 0 <= k < t :: nodeRhs.children[k] == nodeLhs.children[t + k]
  {
    nodeRhs := NewNode(t, nodeLhs.leaf, par).(nrOfKeys := t - 1);
    var es := CopyRun(nodeRhs.entries, 0, nodeLhs.entries, t, t - 1);
    var cs := nodeRhs.children;
    if !nodeLhs.leaf {
      cs := CopyRun(cs, 0, nodeLhs.children, t, t);
    }
    nodeRhs := nodeRhs.(entries := es, children := cs);
    var pc := ShiftUp(nodePar.children, index + 1, nodePar.nrOfKeys + 1);
    var pe := ShiftUp(nodePar.entries, index, nodePar.nrOfKeys);
    newPar := nodePar.(children := pc[index + 1 := rhs], entries := pe[index := nodeLhs.entries[t - 1]],
                       nrOfKeys := nodePar.nrOfKeys + 1);
  }

  class Volume {
    /** BASICBTFS_MIN_DEGREE */
    const t: nat
    const alloc: Allocator
    var blocks: Disk
    /** i_bno of every inode. */
    var iBno: map<nat, nat>
    /** The reverse map from data blocks to files. */
    var info: map<nat, FileInfo>

    constructor (t: nat, alloc: Allocator)
      ensures this.t == t && this.alloc == alloc && blocks == map[] && iBno == map[] && info == map[]
    {
      this.t := t;
      this.alloc := alloc;
      blocks := map[];
      iBno := map[];
      info := map[];
    }

    ghost predicate Ready()
      reads this, alloc
    {
      2 <= t && alloc.Valid()
    }

    /** The tree tr lies at loc, on allocated blocks of its own. */
    ghost predicate Stored(loc: Loc, tr: Tree)
      reads this, alloc.bits
    {
      Rep(blocks, t, loc, tr) && Apart(loc) && Foot(loc) <= alloc.Used()
    }

    /** basicbtfs_btree_split_child */
    method SplitChildBlock(par: nat, lhs: nat, index: nat, ghost loc: Loc, ghost tr: Tree, ghost h: nat, ghost hi: nat)
      returns (ok: bool, rhs: nat)
      requires Ready() && Stored(loc, tr) && 0 < h && Shape(t, tr, h) && |tr.keys| < 2 * t - 1
      requires index < |tr.kids| == |loc.kids| && |tr.kids[index].keys| == 2 * t - 1
      requires par == loc.bno && lhs == loc.kids[index].bno
      modifies this`blocks, alloc, alloc.bits
      ensures Ready() && (ok <==> old(alloc.Free()) != {})
      ensures !ok ==> blocks == old(blocks) && alloc.Used() == old(alloc.Used()) && alloc.Free() == old(alloc.Free())
      ensures ok ==>
                && rhs in old(alloc.Free()) && alloc.Free() == old(alloc.Free()) - {rhs}
                && rhs !in old(alloc.Used()) && alloc.Used() == old(alloc.Used()) + {rhs}
                && Stored(SplitLoc(t, loc, index, rhs), SplitChild(t, tr, index))
                && Agree(old(blocks), blocks, old(alloc.Used()) - {par, lhs})
                && SameHeader(old(blocks), blocks, par) && SameHeader(old(blocks), blocks, lhs)
      ensures ok && Sorted(Flat(tr)) && Clean(old(blocks), loc, tr, hi) ==>
                Clean(blocks, SplitLoc(t, loc, index, rhs), SplitChild(t, tr, index), hi)
      ensures ok ==>
                && KeepsParents(old(blocks), blocks, Foot(loc)) && rhs in blocks && blocks[rhs].TreeBlock?
                && blocks[rhs].node.parent == par && !blocks[rhs].node.root
      ensures ok ==> Opened(blocks, t, loc, SplitLoc(t, loc, index, rhs), index, rhs, true)
      ensures ok && ParentsOk(old(blocks), loc) ==>
                (ParentsOk(blocks, SplitLoc(t, loc, index, rhs)) <==> tr.kids[index].kids == [])
    {
      hide SetBits, Took, TookAt, Gave, FreeBits, Rep, RepAll, Foot, FootAll, Apart, Shape, Holds, SplitLoc,
           SplitChild, LowLoc, HighLoc, LowHalf, HighHalf, Sorted, Flat, Clean, ParentsOk;
      NodeOf(blocks, t, loc, tr);
      NodeOf(blocks, t, loc.kids[index], tr.kids[index]);
      FootTrees(blocks, t, loc, tr);
      rhs := alloc.GetFreeBlocks(1);
      if rhs == NO_BLOCK {
        return false, rhs;
      }
      FootAt(loc, index);
      ghost var before := blocks;
      var nodePar, nodeLhs := blocks[par].node, blocks[lhs].node;
      var newPar, nodeRhs := SplitNodes(t, nodePar, nodeLhs, index, par, rhs);
      blocks := blocks[lhs := TreeBlock(nodeLhs.(nrOfKeys := t - 1))];
      blocks := blocks[rhs := TreeBlock(nodeRhs)][par := TreeBlock(newPar)];
      HoldsHigh(t, nodeLhs, loc.kids[index], tr.kids[index], nodeRhs, rhs);
      HoldsLow(t, nodeLhs, loc.kids[index], tr.kids[index]);
      HoldsSplit(t, nodePar, loc, tr, newPar, index, rhs);
      RepSplit(before, blocks, t, loc, tr, h, index, rhs);
      SplitApart(t, loc, index, rhs);
      if Sorted(Flat(tr)) && Clean(before, loc, tr, hi) {
        CleanSplit(before, blocks, t, loc, tr, h, index, rhs, hi);
      }
      if ParentsOk(before, loc) {
        FootBelow(loc);
        SplitParentsExact(before, blocks, t, loc, SplitLoc(t, loc, index, rhs), index, rhs);
      }
      ok := true;
    }

    /** The internal-node half of basicbtfs_btree_insert_non_full up to the recursive call:
        find the child and split it first if it is full. */
    method OpenChild(bno: nat, e: Entry, ghost loc: Loc, ghost tr: Tree, ghost h: nat, ghost hi: nat)
      returns (ok: bool, child: nat, ghost mid: Loc, ghost rhs: nat)
      requires Ready() && Stored(loc, tr) && 0 < h && Shape(t, tr, h) && |tr.keys| < 2 * t - 1 && bno == loc.bno
      requires |tr.kids| == |tr.keys| + 1
      modifies this`blocks, alloc, alloc.bits
      ensures Ready() && ok == !Refused(t, tr, h, e, old(|alloc.Free()|))
      ensures !ok ==> blocks == old(blocks) && alloc.Used() == old(alloc.Used()) && alloc.Free() == old(alloc.Free())
      ensures ok ==>
                && mid.bno == bno && Stored(mid, Descend(t, tr, e).0)
                && Descend(t, tr, e).1 < |mid.kids| && child == mid.kids[Descend(t, tr, e).1].bno
                && Grown(old(alloc.Used()), old(alloc.Free()), alloc.Used(), alloc.Free(),
                         if SplitsKid(t, tr, e) then 1 else 0)
                && Foot(mid) == Foot(loc) + (alloc.Used() - old(alloc.Used()))
                && Agree(old(blocks), blocks, old(alloc.Used()) - Foot(loc))
                && SameHeader(old(blocks), blocks, bno) && KeepsParents(old(blocks), blocks, Foot(loc))
                && Opened(blocks, t, loc, mid, InsertPos(tr.keys, e.hash), rhs, SplitsKid(t, tr, e))
      ensures ok && Sorted(Flat(tr)) && Clean(old(blocks), loc, tr, hi) ==> Clean(blocks, mid, Descend(t, tr, e).0, hi)
    {
      hide SetBits, Took, TookAt, Gave, FreeBits, Rep, RepAll, Foot, FootAll, Apart, Shape, Holds, SplitLoc,
           SplitChild, FootRest, InsertPos, Sorted, Flat, Clean, ParentsOk, KeepsParents;
      NodeOf(blocks, t, loc, tr);
      ShapeKids(t, tr, h);
      DescendShape(t, tr, h, e);
      var node := blocks[bno].node;
      var index := ScanDown(node.entries, node.nrOfKeys, e.hash);
      child := node.children[index];
      NodeOf(blocks, t, loc.kids[index], tr.kids[index]);
      ShapeKids(t, tr.kids[index], h - 1);
      ok, mid, rhs := true, loc, 0;
      KeepsAll(blocks, t, loc, tr);
      if blocks[child].node.nrOfKeys == 2 * t - 1 {
        var up;
        ok, child, up := SplitForDescent(bno, child, index, e, loc, tr, h, hi);
        rhs, mid := up, if ok then SplitLoc(t, loc, index, up) else loc;
      } else {
        GrownNone(alloc.Used(), alloc.Free());
      }
    }

    /** A full child is split before the descent, which goes on with one of the halves. */
    method SplitForDescent(bno: nat, lhs: nat, index: nat, e: Entry, ghost loc: Loc, ghost tr: Tree, ghost h: nat,
                           ghost hi: nat)
      returns (ok: bool, child: nat, rhs: nat)
      requires Ready() && Stored(loc, tr) && 0 < h && Shape(t, tr, h) && |tr.keys| < 2 * t - 1
      requires index < |tr.kids| == |loc.kids| == |tr.keys| + 1 && |tr.kids[index].keys| == 2 * t - 1
      requires bno == loc.bno && lhs == loc.kids[index].bno
      modifies this`blocks, alloc, alloc.bits
      ensures Ready() && (ok <==> 0 < |old(alloc.Free())|)
      ensures !ok ==> blocks == old(blocks) && alloc.Used() == old(alloc.Used()) && alloc.Free() == old(alloc.Free())
      ensures ok ==>
                var mid, s := SplitLoc(t, loc, index, rhs), SplitChild(t, tr, index);
                && mid.bno == bno && Stored(mid, s)
                && index < |s.keys| && SplitSide(s, index, e) < |mid.kids|
                && child == mid.kids[SplitSide(s, index, e)].bno
                && Grown(old(alloc.Used()), old(alloc.Free()), alloc.Used(), alloc.Free(), 1)
                && Foot(mid) == Foot(loc) + (alloc.Used() - old(alloc.Used()))
                && Agree(old(blocks), blocks, old(alloc.Used()) - Foot(loc))
                && SameHeader(old(blocks), blocks, bno) && KeepsParents(old(blocks), blocks, Foot(loc))
                && Opened(blocks, t, loc, mid, index, rhs, true)
                && (Sorted(Flat(tr)) && Clean(old(blocks), loc, tr, hi) ==> Clean(blocks, mid, s, hi))
    {
      hide SetBits, Took, TookAt, Gave, FreeBits, Rep, RepAll, Foot, FootAll, Apart, Shape, Holds, SplitLoc,
           SplitChild, FootRest, InsertPos, Sorted, Flat, Clean, ParentsOk, KeepsParents, Grown, Opened;
      SplitKeyCount(t, tr, index);
      FootAt(loc, index);
      NodeOf(blocks, t, loc, tr);
      NodeOf(blocks, t, loc.kids[index], tr.kids[index]);
      ShapeKids(t, tr, h);
      ShapeKids(t, tr.kids[index], h - 1);
      child := lhs;
      ok, rhs := SplitChildBlock(bno, lhs, index, loc, tr, h, hi);
      if !ok {
        return;
      }
      GrownOne(old(alloc.Used()), old(alloc.Free()), alloc.Used(), alloc.Free(), rhs);
      ghost var mid := SplitLoc(t, loc, index, rhs);
      SplitApart(t, loc, index, rhs);
      SplitLocBno(t, loc, index, rhs);
      NodeOf(blocks, t, mid, SplitChild(t, tr, index));
      var node := blocks[bno].node;
      child := node.children[if node.entries[index].hash < e.hash then index + 1 else index];
    }

    /** insert_non_full has taken the blocks for its splits, as long as there were any, and
        reports a refusal at its own level. */
    ghost predicate Reported(tr: Tree, h: nat, e: Entry, ok: bool, used: set<nat>, free: set<nat>)
      requires 2 <= t && Shape(t, tr, h) && |tr.keys| < 2 * t - 1
      reads alloc.bits
    {
      && ok == !Refused(t, tr, h, e, |free|)
      && Grown(used, free, alloc.Used(), alloc.Free(), Least(Splits(t, tr, h, e), |free|))
    }

    /** basicbtfs_btree_insert_non_full. What the recursive call reports is not looked at. */
    method InsertNonFullAt(bno: nat, e: Entry, ghost loc: Loc, ghost tr: Tree, ghost h: nat, ghost hi: nat)
      returns (ok: bool, ghost loc': Loc)
      requires Ready() && Stored(loc, tr) && Shape(t, tr, h) && |tr.keys| < 2 * t - 1 && bno == loc.bno
      modifies this`blocks, alloc, alloc.bits
      ensures var m := old(|alloc.Free()|);
              && Ready() && Reported(tr, h, e, ok, old(alloc.Used()), old(alloc.Free()))
              && loc'.bno == bno && Stored(loc', Tried(t, tr, h, e, m))
              && (Sorted(Flat(tr)) && Clean(old(blocks), loc, tr, hi) ==>
                    Clean(blocks, loc', Tried(t, tr, h, e, m), hi))
              && (ParentsOk(old(blocks), loc) ==> (ParentsOk(blocks, loc') <==> !TriedInner(t, tr, h, e, m)))
      ensures !ok ==> blocks == old(blocks) && alloc.Used() == old(alloc.Used()) && loc' == loc
      ensures Foot(loc') == Foot(loc) + (alloc.Used() - old(alloc.Used()))
      ensures Agree(old(blocks), blocks, old(alloc.Used()) - Foot(loc))
      ensures SameHeader(old(blocks), blocks, bno)
      ensures KeepsParents(old(blocks), blocks, Foot(loc)) && KidBnos(loc) <= KidBnos(loc')
      decreases h, 1
    {
      hide SetBits, Took, TookAt, Gave, FreeBits, Rep, RepAll, Foot, FootAll, Apart, Shape, Holds, FootRest, Descend,
           Sorted, Flat, Clean, ParentsOk, KeepsParents, KidBnos, TriedInner, Tried, Splits, Opened, KidRewritten,
           InsertPos, SplitsKid, Grown;
      NodeOf(blocks, t, loc, tr);
      ShapeKids(t, tr, h);
      OwnBlock(loc);
      ok, loc' := true, loc;
      ghost var m := |alloc.Free()|;
      if blocks[bno].node.leaf {
        InsertIntoLeaf(bno, e, loc, tr, hi);
        LeafParents(old(blocks), blocks, t, loc, tr, h);
        LeafTried(t, tr, h, e, m);
        GrownNone(alloc.Used(), alloc.Free());
      } else {
        KidCounts(blocks, t, loc, tr);
        KeepsAll(blocks, t, loc, tr);
        ghost var mid, rhs;
        var child;
        ok, child, mid, rhs := OpenChild(bno, e, loc, tr, h, hi);
        label Open:
        if !ok {
          RefusedTried(t, tr, h, e, m);
          GrownNone(alloc.Used(), alloc.Free());
          return;
        }
        ghost var (s, j) := Descend(t, tr, e);
        ghost var c := Reached(t, tr, h, e);
        ghost var inner := TriedInner(t, c, h - 1, e, |alloc.Free()|);
        ReachedIs(t, tr, h, e, Tried(t, c, h - 1, e, |alloc.Free()|));
        OpenedFlat(t, tr, h, e);
        NodeOf(blocks, t, mid, s);
        var unused;
        unused, loc' := InsertIntoChild(child, e, mid, s, h, j, c, Tried(t, c, h - 1, e, |alloc.Free()|), inner, hi);
        RestLeft(t, tr, h, e, old(alloc.Used()), old(alloc.Free()), old@Open(alloc.Used()), old@Open(alloc.Free()));
        OneLevel(t, tr, h, e, m);
        InnerLevel(t, tr, h, e, m);
        GrownTrans(old(alloc.Used()), old(alloc.Free()), old@Open(alloc.Used()), old@Open(alloc.Free()),
                   alloc.Used(), alloc.Free(), if SplitsKid(t, tr, e) then 1 else 0,
                   Least(Splits(t, c, h - 1, e), old@Open(|alloc.Free()|)), Foot(loc), Foot(mid), Foot(loc'));
        InsertParents(old(blocks), old@Open(blocks), blocks, t, loc, tr, h, e, mid, loc', rhs, inner);
      }
    }

    /** The leaf half of basicbtfs_btree_insert_non_full. */
    method InsertIntoLeaf(bno: nat, e: Entry, ghost loc: Loc, ghost tr: Tree, ghost hi: nat)
      requires Rep(blocks, t, loc, tr) && tr.kids == [] && |tr.keys| < 2 * t - 1 && bno == loc.bno
      modifies this`blocks
      ensures var i := InsertPos(tr.keys, e.hash); var r := Node(tr.keys[..i] + [e] + tr.keys[i..], []);
              && Rep(blocks, t, loc, r) && (Clean(old(blocks), loc, tr, hi) ==> Clean(blocks, loc, r, hi))
      ensures blocks == old(blocks)[bno := blocks[bno]] && SameHeader(old(blocks), blocks, bno)
    {
      hide Rep, RepAll, Holds, Clean;
      NodeOf(blocks, t, loc, tr);
      var node := blocks[bno].node;
      var es, i := MakeRoom(node.entries, node.nrOfKeys, e.hash);
      ghost var r := Node(tr.keys[..i] + [e] + tr.keys[i..], []);
      HoldsLeafInsert(t, node, loc, tr, es[i := e], i, e);
      blocks := blocks[bno := TreeBlock(node.(entries := es[i := e], nrOfKeys := node.nrOfKeys + 1))];
      LeafRep(blocks, t, loc, r);
      if Clean(old(blocks), loc, tr, hi) {
        CleanLeafInsert(old(blocks), blocks, loc, tr, hi, r);
      }
    }

    /** The recursive call of insert_non_full on child j of an opened node, which makes c' of the
        subtree c there. */
    method InsertIntoChild(child: nat, e: Entry, ghost mid: Loc, ghost s: Tree, ghost h: nat, ghost j: nat,
                           ghost c: Tree, ghost c': Tree, ghost inner: bool, ghost hi: nat)
      returns (ok: bool, ghost loc': Loc)
      requires Ready() && Stored(mid, s) && 0 < h && j < |s.kids| == |mid.kids| && child == mid.kids[j].bno
      requires c == s.kids[j] && Shape(t, c, h - 1) && |c.keys| < 2 * t - 1
      requires c' == Tried(t, c, h - 1, e, |alloc.Free()|) && inner == TriedInner(t, c, h - 1, e, |alloc.Free()|)
      modifies this`blocks, alloc, alloc.bits
      ensures Ready() && Reported(c, h - 1, e, ok, old(alloc.Used()), old(alloc.Free()))
      ensures KeepsParents(old(blocks), blocks, Foot(mid)) && KidRewritten(mid, loc', j)
              && (ParentsOk(old(blocks), mid.kids[j]) ==> (ParentsOk(blocks, loc'.kids[j]) <==> !inner))
      ensures var r := Node(s.keys, s.kids[j := c']);
              && loc'.bno == mid.bno && Stored(loc', r)
              && (Sorted(Flat(s)) && Clean(old(blocks), mid, s, hi) ==> Clean(blocks, loc', r, hi))
      ensures !ok ==> blocks == old(blocks) && alloc.Used() == old(alloc.Used()) && loc' == mid
      ensures Foot(loc') == Foot(mid) + (alloc.Used() - old(alloc.Used()))
      ensures Agree(old(blocks), blocks, old(alloc.Used()) - Foot(mid))
      ensures SameHeader(old(blocks), blocks, mid.bno)
      decreases h, 0
    {
      hide SetBits, Took, TookAt, Gave, FreeBits, Rep, RepAll, Foot, FootAll, Apart, Shape, Holds, FootRest, Splits,
           Tried, Sorted, Flat, Clean, ParentsOk, KeepsParents, KidBnos, TriedInner, Refused;
      FootAt(mid, j);
      NodeOf(blocks, t, mid, s);
      ghost var clean := Sorted(Flat(s)) && Clean(blocks, mid, s, hi);
      if clean {
        KidSorted(s, j);
        CleanKid(blocks, mid, s, hi, j);
      }
      ghost var sub;
      ok, sub := InsertNonFullAt(child, e, mid.kids[j], c, h - 1, Bound(s, j, hi));
      RepReplace(old(blocks), blocks, t, mid, s, j, sub, c');
      if clean {
        CleanReplace(old(blocks), blocks, mid, s, hi, j, sub, c');
      }
      FootReplace(mid, j, sub);
      loc' := mid.(kids := mid.kids[j := sub]);
      KeepsRest(old(blocks), blocks, t, mid, s, j);
    }

    /** basicbtfs_btree_node_insert: the only place where the tree gets higher. */
    method NodeInsert(dirIno: nat, bno: nat, e: Entry, ghost loc: Loc, ghost tr: Tree, ghost h: nat)
      returns (ok: bool, ghost loc': Loc)
      requires Ready() && Stored(loc, tr) && Shape(t, tr, h) && (0 < h ==> 1 <= |tr.keys|) && bno == loc.bno
      modifies this`blocks, this`iBno, alloc, alloc.bits
      ensures Inserted(old(blocks), old(iBno), old(alloc.Used()), old(alloc.Free()), dirIno, e, loc, tr, h, ok, loc')
      ensures RoomFor(t, tr, h, e) <= old(|alloc.Free()|) ==>
                && ok && Stored(loc', InsertTree(t, tr, h, e))
                && Grown(old(alloc.Used()), old(alloc.Free()), alloc.Used(), alloc.Free(), RoomFor(t, tr, h, e))
                && (Sorted(Flat(tr)) && Clean(old(blocks), loc, tr, U32) ==>
                      Clean(blocks, loc', InsertTree(t, tr, h, e), U32))
                && (ParentsOk(old(blocks), loc) ==> (ParentsOk(blocks, loc') <==> !InsertSplitsInner(t, tr, h, e)))
    {
      hide SetBits, Took, TookAt, Gave, FreeBits, Rep, RepAll, Foot, FootAll, Apart, Shape, Holds, FootRest, Descend,
           Sorted, Flat, Clean, ParentsOk, KidBnos, TriedInner, Tried, Splits, SplitsInner, InsertTree, Grown;
      NodeOf(blocks, t, loc, tr);
      OwnBlock(loc);
      ghost var m := |alloc.Free()|;
      if blocks[bno].node.nrOfKeys == 2 * t - 1 {
        ok, loc' := GrowRoot(dirIno, bno, e, loc, tr, h);
      } else {
        ok, loc' := InsertNonFullAt(bno, e, loc, tr, h, U32);
        if ok {
          label Counted:
          var old_ := blocks[bno].node;
          blocks := blocks[bno := TreeBlock(old_.(nrOfFiles := (old_.nrOfFiles + 1) % U32))];
          RepSameNodes(old@Counted(blocks), blocks, t, loc', Tried(t, tr, h, e, m));
          CountParents(old@Counted(blocks), blocks, t, loc', Tried(t, tr, h, e, m));
          if Clean(old@Counted(blocks), loc', Tried(t, tr, h, e, m), U32) {
            CleanSame(old@Counted(blocks), blocks, loc', Tried(t, tr, h, e, m), U32);
          }
        }
      }
      Outcome(t, tr, h, e, m);
      if RoomFor(t, tr, h, e) <= m {
        RoomInner(t, tr, h, e, m);
      }
    }

    /** How things stand after node_insert: tree, directory and volume, were there blocks
        enough or not. */
    ghost predicate Inserted(d: Disk, iBno0: map<nat, nat>, used: set<nat>, free: set<nat>, dirIno: nat, e: Entry,
                             loc: Loc, tr: Tree, h: nat, ok: bool, loc': Loc)
      requires 2 <= t && Shape(t, tr, h)
      reads this, alloc, alloc.bits
    {
      var m := |free|;
      && Ready() && ok == Accepted(t, tr, h, e, m) && Stored(loc', TriedTree(t, tr, h, e, m))
      && Grown(used, free, alloc.Used(), alloc.Free(), Taken(t, tr, h, e, m))
      && Agree(d, blocks, used - Foot(loc))
      && if ok then
           && Foot(loc') == Foot(loc) + (alloc.Used() - used)
           && iBno == (if loc'.bno == loc.bno then iBno0 else iBno0[dirIno := loc'.bno])
           && RootCarried(d, loc.bno, blocks, loc'.bno, dirIno, 1)
           && (loc'.bno != loc.bno ==> ParentIs(blocks, loc.bno, loc'.bno) && !blocks[loc.bno].node.root)
           && (Sorted(Flat(tr)) && Clean(d, loc, tr, U32) ==> Clean(blocks, loc', TriedTree(t, tr, h, e, m), U32))
           && (ParentsOk(d, loc) ==> (ParentsOk(blocks, loc') <==> !InsertTriedInner(t, tr, h, e, m)))
         else
           loc'.bno == loc.bno && Foot(loc') <= Foot(loc) && iBno == iBno0 && SameHeader(d, blocks, loc.bno)
    }

    /** The case of a full root. */
    method GrowRoot(dirIno: nat, bno: nat, e: Entry, ghost loc: Loc, ghost tr: Tree, ghost h: nat)
      returns (ok: bool, ghost loc': Loc)
      requires Ready() && Stored(loc, tr) && Shape(t, tr, h) && bno == loc.bno && |tr.keys| == 2 * t - 1
      modifies this`blocks, this`iBno, alloc, alloc.bits
      ensures Inserted(old(blocks), old(iBno), old(alloc.Used()), old(alloc.Free()), dirIno, e, loc, tr, h, ok, loc')
      ensures ok ==> loc'.bno != bno
    {
      hide SetBits, Took, TookAt, Gave, FreeBits, Rep, RepAll, Foot, FootAll, Apart, Shape, Holds, Descend, Splits,
           Tried, SplitLoc, SplitChild, Grown, Sorted, Flat, Clean, ParentsOk, KidBnos, TriedInner, Refused, Half,
           Accepted, TriedTree, Taken, InsertTriedInner, LowHalf, SplitSide, OverHalf, InsertPos, Opened,
           KidRewritten, KeepsParents, Agree;
      NodeOf(blocks, t, loc, tr);
      OwnBlock(loc);
      KeepsAll(blocks, t, loc, tr);
      loc' := loc;
      ghost var m := |alloc.Free()|;
      var nodeOld := blocks[bno].node;
      ghost var single := Node([], [tr]);
      ghost var (s, j) := Descend(t, single, e);
      if m < 2 { RootShort(t, tr, h, e, m); } else { RootTried(t, tr, h, e, m); }
      ghost var c := Half(t, tr, h, e);
      RootDescend(t, tr, h, e, Tried(t, c, h, e, if m < 2 then 0 else m - 2));
      ghost var mid;
      var newRoot, child;
      ok, newRoot := NewRoot(dirIno, bno, loc, tr, h);
      label Placed:
      if !ok {
        GrownNone(alloc.Used(), alloc.Free());
        AgreeSelf(blocks, alloc.Used() - Foot(loc));
        return;
      }
      AgreeAt(old(blocks), blocks, old(alloc.Used()), Foot(loc), bno);
      var rhs;
      ok, rhs := SplitOldRoot(newRoot, bno, loc, tr, h);
      label Halved:
      if !ok {
        RepFrame(old(blocks), blocks, t, loc, tr);
        return;
      }
      mid := SplitLoc(t, Loc(newRoot, [loc]), 0, rhs);
      child := PickHalf(newRoot, e, mid, s);
      ghost var inner := TriedInner(t, c, h, e, m - 2);
      SingleSorted(t, tr, h, e);
      ok, loc' := InsertIntoChild(child, e, mid, s, h + 1, j, c, Tried(t, c, h, e, m - 2), inner, U32);
      RootGrown(old(blocks), old@Placed(blocks), old@Halved(blocks), blocks, old(alloc.Used()), old(alloc.Free()),
                old@Placed(alloc.Used()), old@Placed(alloc.Free()), old@Halved(alloc.Used()), old@Halved(alloc.Free()),
                alloc.Used(), alloc.Free(), Least(Splits(t, c, h, e), old@Halved(|alloc.Free()|)),
                Foot(loc), Foot(Loc(newRoot, [loc])), Foot(mid), Foot(loc'));
      if !ok {
        LowKid(blocks, t, mid, tr, h, newRoot, loc, rhs);
        loc' := mid.kids[0];
        return;
      }
      label Below:
      NodeOf(blocks, t, loc', TriedTree(t, tr, h, e, m));
      OwnBlock(loc');
      RelinkRoot(dirIno, bno, newRoot, nodeOld, loc', TriedTree(t, tr, h, e, m));
      AgreeRelinked(old(blocks), old@Below(blocks), blocks, old(alloc.Used()), alloc.Used(), Foot(loc), bno, newRoot);
      GrownParents(old(blocks), old@Placed(blocks), old@Halved(blocks), old@Below(blocks), blocks, t, loc, tr, h, e,
                   newRoot, mid, loc', rhs, j, inner);
    }

    /** A new root over the old one. */
    method NewRoot(dirIno: nat, bno: nat, ghost loc: Loc, ghost tr: Tree, ghost h: nat)
      returns (ok: bool, newRoot: nat)
      requires Ready() && Stored(loc, tr) && Shape(t, tr, h) && bno == loc.bno && |tr.keys| == 2 * t - 1
      modifies this`blocks, alloc, alloc.bits
      ensures Ready() && (ok <==> 0 < |old(alloc.Free())|)
      ensures !ok ==> blocks == old(blocks) && alloc.Used() == old(alloc.Used()) && alloc.Free() == old(alloc.Free())
      ensures ok ==>
                && newRoot !in old(alloc.Used())
                && Stored(Loc(newRoot, [loc]), Node([], [tr])) && Foot(Loc(newRoot, [loc])) == Foot(loc) + {newRoot}
                && Grown(old(alloc.Used()), old(alloc.Free()), alloc.Used(), alloc.Free(), 1)
                && Foot(Loc(newRoot, [loc])) == Foot(loc) + (alloc.Used() - old(alloc.Used()))
                && |alloc.Free()| == |old(alloc.Free())| - 1
                && Agree(old(blocks), blocks, old(alloc.Used())) && KeepsParents(old(blocks), blocks, Foot(loc))
      ensures ok && Clean(old(blocks), loc, tr, U32) ==> Clean(blocks, Loc(newRoot, [loc]), Node([], [tr]), U32)
    {
      hide SetBits, Took, TookAt, Gave, FreeBits, Rep, RepAll, Foot, FootAll, Apart, Shape, Holds, Grown, Clean;
      NodeOf(blocks, t, loc, tr);
      newRoot := alloc.GetFreeBlocks(1);
      if newRoot == NO_BLOCK {
        return false, newRoot;
      }
      ok := true;
      GrownOne(old(alloc.Used()), old(alloc.Free()), alloc.Used(), alloc.Free(), newRoot);
      var node := NewNode(t, false, dirIno);
      blocks := blocks[newRoot := TreeBlock(node.(children := node.children[0 := bno]))];
      SingleRoot(old(blocks), blocks, t, newRoot, dirIno, loc, tr, h);
      FootTrees(old(blocks), t, loc, tr);
      if Clean(old(blocks), loc, tr, U32) {
        CleanSingle(old(blocks), blocks, newRoot, loc, tr);
      }
    }

    /** The split of a new root's only child. */
    method SplitOldRoot(newRoot: nat, bno: nat, ghost loc: Loc, ghost tr: Tree, ghost h: nat)
      returns (ok: bool, rhs: nat)
      requires Ready() && Shape(t, tr, h) && bno == loc.bno && |tr.keys| == 2 * t - 1
      requires Stored(Loc(newRoot, [loc]), Node([], [tr]))
      modifies this`blocks, alloc, alloc.bits
      ensures Ready() && (ok <==> 0 < |old(alloc.Free())|)
      ensures !ok ==> blocks == old(blocks) && alloc.Used() == old(alloc.Used()) && alloc.Free() == old(alloc.Free())
      ensures ok ==>
              var up := Loc(newRoot, [loc]); var mid := SplitLoc(t, up, 0, rhs);
              && rhs !in old(alloc.Used()) && Stored(mid, SplitChild(t, Node([], [tr]), 0)) && bno in Foot(mid)
              && Foot(mid) == Foot(up) + (alloc.Used() - old(alloc.Used()))
              && Agree(old(blocks), blocks, old(alloc.Used()) - Foot(up))
              && mid.bno == newRoot && |mid.kids| == 2
              && |alloc.Free()| == |old(alloc.Free())| - 1
              && Grown(old(alloc.Used()), old(alloc.Free()), alloc.Used(), alloc.Free(), 1)
              && KeepsParents(old(blocks), blocks, Foot(up)) && Opened(blocks, t, up, mid, 0, rhs, true)
              && SameHeader(old(blocks), blocks, bno)
      ensures ok && Sorted(Flat(tr)) && Clean(old(blocks), Loc(newRoot, [loc]), Node([], [tr]), U32) ==>
                Clean(blocks, SplitLoc(t, Loc(newRoot, [loc]), 0, rhs), SplitChild(t, Node([], [tr]), 0), U32)
    {
      hide SetBits, Took, TookAt, Gave, FreeBits, Rep, RepAll, Foot, FootAll, Apart, Shape, Holds, SplitLoc,
           SplitChild, Grown, Sorted, Flat, Clean;
      SingleFlat(tr);
      ghost var up, single := Loc(newRoot, [loc]), Node([], [tr]);
      FootAt(up, 0);
      GrownShape(t, tr, h);
      ShapeKids(t, tr, h);
      NodeOf(blocks, t, up, single);
      NodeOf(blocks, t, loc, tr);
      ok, rhs := SplitChildBlock(newRoot, bno, 0, up, single, h + 1, U32);
      if !ok {
        return;
      }
      GrownOne(old(alloc.Used()), old(alloc.Free()), alloc.Used(), alloc.Free(), rhs);
      SplitRootFacts(t, up, single, rhs);
    }

    /** Which half of the old root the entry goes to. */
    method PickHalf(newRoot: nat, e: Entry, ghost mid: Loc, ghost s: Tree) returns (child: nat)
      requires Rep(blocks, t, mid, s) && mid.bno == newRoot && |s.keys| == 1 && |s.kids| == 2
      ensures SplitSide(s, 0, e) < |mid.kids| && child == mid.kids[SplitSide(s, 0, e)].bno
    {
      hide Rep, Holds;
      NodeOf(blocks, t, mid, s);
      var node := blocks[newRoot].node;
      child := node.children[if node.entries[0].hash < e.hash then 1 else 0];
    }

    /** The fields that make newRoot the root and bno an inner node. */
    method RelinkRoot(dirIno: nat, bno: nat, newRoot: nat, nodeOld: BNode, ghost loc: Loc, ghost tr: Tree)
      requires Stored(loc, tr) && newRoot == loc.bno && bno in Foot(loc) && bno != newRoot
      modifies this`blocks, this`iBno
      ensures Stored(loc, tr) && iBno == old(iBno)[dirIno := newRoot]
      ensures Agree(old(blocks), blocks, alloc.Used() - {bno, newRoot})
      ensures newRoot in blocks && blocks[newRoot].TreeBlock?
      ensures var n := blocks[newRoot].node;
              && n.nrOfFiles == (nodeOld.nrOfFiles + 1) % U32 && n.treeName == nodeOld.treeName && n.root
              && n.parent == dirIno
      ensures bno in blocks && blocks[bno].TreeBlock? && !blocks[bno].node.root && blocks[bno].node.parent == newRoot
      ensures KeepsParents(old(blocks), blocks, Foot(loc) - {bno, newRoot})
      ensures Clean(old(blocks), loc, tr, U32) ==> Clean(blocks, loc, tr, U32)
    {
      FootTree(blocks, t, loc, tr, newRoot);
      FootTree(blocks, t, loc, tr, bno);
      FootTrees(blocks, t, loc, tr);
      var n, o := blocks[newRoot].node, blocks[bno].node;
      iBno := iBno[dirIno := newRoot];
      blocks := blocks[newRoot := TreeBlock(n.(nrOfFiles := (nodeOld.nrOfFiles + 1) % U32, treeName := nodeOld.treeName,
                                               parent := dirIno, root := true))]
                      [bno := TreeBlock(o.(root := false, parent := newRoot))];
      RepSameNodes(old(blocks), blocks, t, loc, tr);
      if Clean(old(blocks), loc, tr, U32) {
        CleanSame(old(blocks), blocks, loc, tr, U32);
      }
    }
  }

  lemma SingleSorted(t: nat, tr: Tree, h: nat, e: Entry)
    requires 2 <= t && Shape(t, tr, h) && |tr.keys| == 2 * t - 1
    ensures Shape(t, Node([], [tr]), h + 1) && Flat(Descend(t, Node([], [tr]), e).0) == Flat(tr)
  {
    GrownShape(t, tr, h);
    SingleFlat(tr);
    OpenedFlat(t, Node([], [tr]), h + 1, e);
  }

  /** Splitting on the way down changes no sequence. */
  lemma OpenedFlat(t: nat, tr: Tree, h: nat, e: Entry)
    requires 2 <= t && 0 < h && Shape(t, tr, h) && |tr.keys| < 2 * t - 1
    ensures |tr.kids| == |tr.keys| + 1 && Flat(Descend(t, tr, e).0) == Flat(tr)
  {
    hide Flat, SplitChild;
    var i := InsertPos(tr.keys, e.hash);
    if |tr.kids[i].keys| == 2 * t - 1 {
      SplitFlat(t, tr, h, i);
    }
  }

  lemma LeafTried(t: nat, tr: Tree, h: nat, e: Entry, m: nat)
    requires 2 <= t && Shape(t, tr, h) && h == 0 && |tr.keys| < 2 * t - 1
    ensures var i := InsertPos(tr.keys, e.hash); Tried(t, tr, h, e, m) == Node(tr.keys[..i] + [e] + tr.keys[i..], [])
    ensures Least(Splits(t, tr, h, e), m) == 0 && !TriedInner(t, tr, h, e, m)
  {
  }

  lemma RefusedTried(t: nat, tr: Tree, h: nat, e: Entry, m: nat)
    requires 2 <= t && Shape(t, tr, h) && |tr.keys| < 2 * t - 1 && Refused(t, tr, h, e, m)
    ensures Tried(t, tr, h, e, m) == tr && Least(Splits(t, tr, h, e), m) == 0 && !TriedInner(t, tr, h, e, m)
  {
  }

  /** What the split of one level leaves of the blocks. */
  lemma RestLeft(t: nat, tr: Tree, h: nat, e: Entry, used: set<nat>, free: set<nat>, used': set<nat>, free': set<nat>)
    requires 2 <= t && 0 < h && Shape(t, tr, h) && |tr.keys| < 2 * t - 1 && !Refused(t, tr, h, e, |free|)
    requires |tr.kids| == |tr.keys| + 1 && Grown(used, free, used', free', if SplitsKid(t, tr, e) then 1 else 0)
    ensures Rest(t, tr, e, |free|) == |free'|
    ensures Least(Splits(t, tr, h, e), |free|)
            == (if SplitsKid(t, tr, e) then 1 else 0) + Least(Splits(t, Reached(t, tr, h, e), h - 1, e), |free'|)
  {
    hide Shape, Splits, Reached, SplitsKid;
    OneSplit(t, tr, h, e);
  }

  lemma ReachedIs(t: nat, tr: Tree, h: nat, e: Entry, c: Tree)
    requires 2 <= t && 0 < h && Shape(t, tr, h) && |tr.keys| < 2 * t - 1
    ensures |tr.kids| == |tr.keys| + 1 && Descend(t, tr, e).1 < |Descend(t, tr, e).0.kids|
    ensures var (s, j) := Descend(t, tr, e);
            s.kids[j] == Reached(t, tr, h, e) && WithReached(t, tr, h, e, c) == Node(s.keys, s.kids[j := c])
  {
    DescendShape(t, tr, h, e);
  }

  /** The lower half of a root that was split under a new one. */
  lemma {:induction false} LowKid(d: Disk, t: nat, mid: Loc, tr: Tree, h: nat, top: nat, loc: Loc, rhs: nat)
    requires 2 <= t && Shape(t, tr, h) && |tr.keys| == 2 * t - 1 && |Node([], [tr]).kids| == 1
    requires mid == SplitLoc(t, Loc(top, [loc]), 0, rhs) && Apart(mid)
    requires Rep(d, t, mid, SplitChild(t, Node([], [tr]), 0))
    ensures |mid.kids| == 2 && mid.kids[0].bno == loc.bno && Rep(d, t, mid.kids[0], LowHalf(t, tr))
    ensures Apart(mid.kids[0]) && Foot(mid.kids[0]) <= Foot(loc) && Foot(mid.kids[0]) <= Foot(mid)
  {
    hide Rep, Shape;
    NodeOf(d, t, mid, SplitChild(t, Node([], [tr]), 0));
    FootAt(mid, 0);
    LowFoot(t, loc);
  }

  lemma LowFoot(t: nat, c: Loc)
    ensures Foot(LowLoc(t, c)) <= Foot(c)
  {
    if |c.kids| >= 2 * t {
      FootAppend(c.kids[..t], c.kids[t..]);
      assert c.kids == c.kids[..t] + c.kids[t..];
    }
  }

  lemma KidSorted(tr: Tree, j: nat)
    requires |tr.kids| == |tr.keys| + 1 && j < |tr.kids| && Sorted(Flat(tr))
    ensures Sorted(Flat(tr.kids[j]))
  {
    FlatAt(tr, j);
    SortedSplit(Before(tr, j), Flat(tr.kids[j]), After(tr, j));
  }

  lemma CleanSingle(d: Disk, e: Disk, b: nat, loc: Loc, tr: Tree)
    requires Clean(d, loc, tr, U32) && Agree(d, e, Foot(loc)) && b in e && e[b].TreeBlock?
    requires forall k | 0 <= k < |e[b].node.entries| :: e[b].node.entries[k] == ZERO_ENTRY
    ensures Clean(e, Loc(b, [loc]), Node([], [tr]), U32)
  {
    CleanFrame(d, e, loc, tr, U32);
  }

  /** Every block of a stored tree is a tree block. */
  lemma {:induction false} FootTree(d: Disk, t: nat, loc: Loc, tr: Tree, b: nat)
    requires Rep(d, t, loc, tr) && b in Foot(loc)
    ensures b in d && d[b].TreeBlock?
    decreases loc, 1
  {
    if b != loc.bno {
      FootTreeAll(d, t, loc.kids, tr.kids, b);
    }
  }

  lemma {:induction false} FootTreeAll(d: Disk, t: nat, locs: seq<Loc>, trs: seq<Tree>, b: nat)
    requires RepAll(d, t, locs, trs) && b in FootAll(locs)
    ensures b in d && d[b].TreeBlock?
    decreases locs, 0
  {
    if b in Foot(locs[0]) {
      assert Rep(d, t, locs[0], trs[0]);
      FootTree(d, t, locs[0], trs[0], b);
    } else {
      FootTreeAll(d, t, locs[1..], trs[1..], b);
    }
  }

  lemma FootTrees(d: Disk, t: nat, loc: Loc, tr: Tree)
    requires Rep(d, t, loc, tr)
    ensures forall b | b in Foot(loc) :: b in d && d[b].TreeBlock?
  {
    forall b | b in Foot(loc)
      ensures b in d && d[b].TreeBlock?
    {
      FootTree(d, t, loc, tr, b);
    }
  }

  lemma FootBelow(loc: Loc)
    ensures FootAll(loc.kids) <= Foot(loc)
  {
  }

  /** A fresh root over one child. */
  lemma SingleRoot(d: Disk, e: Disk, t: nat, b: nat, ino: nat, loc: Loc, tr: Tree, h: nat)
    requires 2 <= t && Rep(d, t, loc, tr) && Apart(loc) && b !in Foot(loc) && Agree(d, e, Foot(loc))
    requires Shape(t, tr, h) && |tr.keys| == 2 * t - 1
    requires b in e && e[b] == TreeBlock(NewNode(t, false, ino).(children := Zeroes(2 * t, 0)[0 := loc.bno]))
    ensures Rep(e, t, Loc(b, [loc]), Node([], [tr])) && Apart(Loc(b, [loc]))
    ensures Foot(Loc(b, [loc])) == {b} + Foot(loc) && Shape(t, Node([], [tr]), h + 1)
  {
    hide Foot, Apart, Rep, Shape;
    FootOne(loc);
    RepFrame(d, e, t, loc, tr);
    SingleParts(e, t, b, loc, tr, h);
  }

  lemma SingleParts(e: Disk, t: nat, b: nat, loc: Loc, tr: Tree, h: nat)
    requires 2 <= t && Rep(e, t, loc, tr) && Apart(loc) && b !in Foot(loc) && Shape(t, tr, h) && |tr.keys| == 2 * t - 1
    requires FootAll([loc]) == Foot(loc) && ApartAll([loc])
    requires b in e && e[b].TreeBlock? && Holds(t, e[b].node, Loc(b, [loc]), Node([], [tr]))
    ensures Rep(e, t, Loc(b, [loc]), Node([], [tr])) && Apart(Loc(b, [loc]))
    ensures Foot(Loc(b, [loc])) == {b} + Foot(loc) && Shape(t, Node([], [tr]), h + 1)
  {
  }

  lemma SplitRootFacts(t: nat, up: Loc, single: Tree, rhs: nat)
    requires 2 <= t && |up.kids| == |single.kids| == 1 && |single.keys| == 0 && |single.kids[0].keys| == 2 * t - 1
    requires Apart(up) && rhs !in Foot(up) && (|up.kids[0].kids| == 0 || |up.kids[0].kids| == 2 * t)
    ensures SplitLoc(t, up, 0, rhs).bno == up.bno && |SplitLoc(t, up, 0, rhs).kids| == 2
    ensures Foot(SplitLoc(t, up, 0, rhs)) == Foot(up) + {rhs}
    ensures single.kids[0].keys != [] && up.kids[0].bno in Foot(SplitLoc(t, up, 0, rhs))
  {
    hide Foot, Apart;
    SplitApart(t, up, 0, rhs);
    FootAt(SplitLoc(t, up, 0, rhs), 0);
  }

  /** At a fresh root the only child is split. */
  lemma RootDescend(t: nat, tr: Tree, h: nat, e: Entry, c: Tree)
    requires 2 <= t && Shape(t, tr, h) && |tr.keys| == 2 * t - 1
    ensures Shape(t, Node([], [tr]), h + 1)
    ensures var root := Node([], [tr]); var s := SplitChild(t, root, 0);
            && Descend(t, root, e) == (s, SplitSide(s, 0, e)) && |s.keys| == 1 && |s.kids| == 2
            && s.kids[SplitSide(s, 0, e)] == Half(t, tr, h, e)
            && s.kids[0] == LowHalf(t, tr)
            && OverHalf(t, tr, h, e, c) == Node(s.keys, s.kids[SplitSide(s, 0, e) := c])
  {
    GrownShape(t, tr, h);
    hide Shape;
    var root := Node([], [tr]);
    DescendShape(t, root, h + 1, e);
    SplitKeyCount(t, root, 0);
  }

  /** An insertion under a new root, by the blocks there are. */
  lemma RootShort(t: nat, tr: Tree, h: nat, e: Entry, m: nat)
    requires 2 <= t && Shape(t, tr, h) && |tr.keys| == 2 * t - 1 && m < 2
    ensures !Accepted(t, tr, h, e, m) && TriedTree(t, tr, h, e, m) == tr && Taken(t, tr, h, e, m) == m
  {
    hide Splits, Tried, Half;
    RootLevel(t, tr, h, e, m);
    RootSplits(t, tr, h, e, m);
  }

  lemma RootTried(t: nat, tr: Tree, h: nat, e: Entry, m: nat)
    requires 2 <= t && Shape(t, tr, h) && |tr.keys| == 2 * t - 1 && 2 <= m
    ensures Taken(t, tr, h, e, m) == 2 + Least(Splits(t, Half(t, tr, h, e), h, e), m - 2)
    ensures Accepted(t, tr, h, e, m) == !Refused(t, Half(t, tr, h, e), h, e, m - 2)
    ensures !Accepted(t, tr, h, e, m) ==> TriedTree(t, tr, h, e, m) == LowHalf(t, tr)
    ensures Accepted(t, tr, h, e, m) ==>
              TriedTree(t, tr, h, e, m) == OverHalf(t, tr, h, e, Tried(t, Half(t, tr, h, e), h, e, m - 2))
    ensures InsertTriedInner(t, tr, h, e, m) <==> 0 < h || TriedInner(t, Half(t, tr, h, e), h, e, m - 2)
  {
    hide Shape, Splits, Tried, TriedInner, Reached, WithReached, SplitsKid, Refused;
    RootLevel(t, tr, h, e, m);
    RootSplits(t, tr, h, e, m);
    OneLevel(t, Node([], [tr]), h + 1, e, m - 1);
    InnerLevel(t, Node([], [tr]), h + 1, e, m - 1);
  }

  /** At most one block for every level and one for a new root. */
  lemma RoomEnough(t: nat, tr: Tree, h: nat, e: Entry)
    requires 2 <= t && Shape(t, tr, h)
    ensures RoomFor(t, tr, h, e) <= h + 2
  {
    hide Shape, Splits;
    GrowShape(t, tr, h);
  }

  lemma GrowShape(t: nat, tr: Tree, h: nat)
    requires 2 <= t && Shape(t, tr, h)
    ensures |tr.keys| == 2 * t - 1 ==> Shape(t, Node([], [tr]), h + 1)
  {
  }

  /** The root's own fields have moved along, its file count changed by delta. */
  ghost predicate RootCarried(d: Disk, b: nat, e: Disk, c: nat, ino: nat, delta: int) {
    && b in d && d[b].TreeBlock? && c in e && e[c].TreeBlock?
    && e[c].node.nrOfFiles == (d[b].node.nrOfFiles + delta) % U32
    && e[c].node.treeName == d[b].node.treeName
    && if c == b then e[c].node.root == d[b].node.root && e[c].node.parent == d[b].node.parent
       else e[c].node.root && e[c].node.parent == ino
  }

  /** n blocks have gone from free to used. */
  ghost predicate Grown(used: set<nat>, free: set<nat>, used': set<nat>, free': set<nat>, n: nat) {
    used <= used' && free' <= free && used' - used == free - free' && |free'| == |free| - n
  }

  lemma GrownTrans(u0: set<nat>, f0: set<nat>, u1: set<nat>, f1: set<nat>, u2: set<nat>, f2: set<nat>, n: nat, m: nat,
                   foot: set<nat>, foot': set<nat>, foot'': set<nat>)
    requires Grown(u0, f0, u1, f1, n) && Grown(u1, f1, u2, f2, m)
    requires foot' == foot + (u1 - u0) && foot'' == foot' + (u2 - u1)
    ensures Grown(u0, f0, u2, f2, n + m) && foot'' == foot + (u2 - u0)
  {
    assert u2 - u0 == (u1 - u0) + (u2 - u1);
    assert f0 - f2 == (f0 - f1) + (f1 - f2);
  }

  lemma GrownOne(u0: set<nat>, f0: set<nat>, u1: set<nat>, f1: set<nat>, b: nat)
    requires b in f0 && f1 == f0 - {b} && b !in u0 && u1 == u0 + {b}
    ensures Grown(u0, f0, u1, f1, 1) && u1 - u0 == {b} && |f1| == |f0| - 1
  {
    assert u1 - u0 == {b};
    assert f0 - f1 == {b};
  }

  lemma AgreeSelf(d: Disk, s: set<nat>)
    ensures Agree(d, d, s)
  {
  }

  lemma AgreeAt(d: Disk, e: Disk, used: set<nat>, foot: set<nat>, b: nat)
    requires Agree(d, e, used) && foot <= used && b in foot && b in d
    ensures Agree(d, e, foot) && Agree(d, e, used - foot) && b in e && e[b] == d[b]
  {
  }

  /** Two blocks for a new root and then n more. */
  lemma RootGrown(d0: Disk, d1: Disk, d2: Disk, d3: Disk, u0: set<nat>, f0: set<nat>, u1: set<nat>, f1: set<nat>,
                  u2: set<nat>, f2: set<nat>, u3: set<nat>, f3: set<nat>, n: nat, foot: set<nat>, up: set<nat>,
                  mid: set<nat>, foot': set<nat>)
    requires Agree(d0, d1, u0) && Agree(d1, d2, u1 - up) && Agree(d2, d3, u2 - mid)
    requires Grown(u0, f0, u1, f1, 1) && Grown(u1, f1, u2, f2, 1) && Grown(u2, f2, u3, f3, n)
    requires up == foot + (u1 - u0) && mid == up + (u2 - u1) && foot' == mid + (u3 - u2)
    ensures Grown(u0, f0, u3, f3, 2 + n) && foot' == foot + (u3 - u0) && Agree(d0, d3, u0 - foot) && u0 <= u3
  {
    GrownTrans(u1, f1, u2, f2, u3, f3, 1, n, up, mid, foot');
    GrownTrans(u0, f0, u1, f1, u3, f3, 1, 1 + n, foot, up, foot');
  }

  lemma AgreeRelinked(d: Disk, e: Disk, f: Disk, u0: set<nat>, u: set<nat>, foot: set<nat>, a: nat, b: nat)
    requires Agree(d, e, u0 - foot) && Agree(e, f, u - {a, b}) && u0 <= u && a in foot && b !in u0
    ensures Agree(d, f, u0 - foot)
  {
  }

  lemma GrownNone(used: set<nat>, free: set<nat>)
    ensures Grown(used, free, used, free, 0)
  {
    assert used - used == free - free;
  }

  lemma OwnBlock(loc: Loc)
    ensures loc.bno in Foot(loc)
  {
  }

  lemma ShapeKids(t: nat, tr: Tree, h: nat)
    requires Shape(t, tr, h)
    ensures h == 0 <==> tr.kids == []
    ensures h > 0 ==> |tr.kids| == |tr.keys| + 1 && forall i | 0 <= i < |tr.kids| :: Shape(t, tr.kids[i], h - 1)
  {
  }

  lemma KidCounts(d: Disk, t: nat, loc: Loc, tr: Tree)
    requires Rep(d, t, loc, tr)
    ensures |loc.kids| == |tr.kids| && forall q | 0 <= q < |tr.kids| :: |loc.kids[q].kids| == |tr.kids[q].kids|
  {
    forall q | 0 <= q < |tr.kids|
      ensures |loc.kids[q].kids| == |tr.kids[q].kids|
    {
      assert Rep(d, t, loc.kids[q], tr.kids[q]);
    }
  }

  lemma KeepsAll(d: Disk, t: nat, loc: Loc, tr: Tree)
    requires Rep(d, t, loc, tr)
    ensures KeepsParents(d, d, Foot(loc))
  {
    FootTrees(d, t, loc, tr);
  }

  /** A leaf has no children to name it. */
  lemma LeafParents(d: Disk, e: Disk, t: nat, loc: Loc, tr: Tree, h: nat)
    requires 2 <= t && Shape(t, tr, h) && h == 0 && |tr.keys| < 2 * t - 1 && |loc.kids| == |tr.kids|
    requires loc.bno in d && d[loc.bno].TreeBlock? && SameHeader(d, e, loc.bno)
    ensures KeepsParents(d, e, Foot(loc)) && ParentsOk(d, loc) && ParentsOk(e, loc)
  {
  }

  /** One level of an insertion, put together. */
  lemma InsertParents(d: Disk, m: Disk, e: Disk, t: nat, loc: Loc, tr: Tree, h: nat, x: Entry, mid: Loc, loc': Loc,
                      rhs: nat, below: bool)
    requires 2 <= t && Shape(t, tr, h) && 0 < h && |tr.keys| < 2 * t - 1 && |loc.kids| == |tr.kids| == |tr.keys| + 1
    requires forall q | 0 <= q < |tr.kids| :: |loc.kids[q].kids| == |tr.kids[q].kids|
    requires Opened(m, t, loc, mid, InsertPos(tr.keys, x.hash), rhs, SplitsKid(t, tr, x))
    requires KeepsParents(d, m, Foot(loc)) && KeepsParents(m, e, Foot(mid)) && Foot(loc) <= Foot(mid)
             && loc.bno == mid.bno
    requires Apart(loc) && Apart(mid)
    requires var (s, j) := Descend(t, tr, x);
             KidRewritten(mid, loc', j) && (ParentsOk(m, mid.kids[j]) ==> (ParentsOk(e, loc'.kids[j]) <==> !below))
    ensures KeepsParents(d, e, Foot(loc)) && KidBnos(loc) <= KidBnos(loc')
    ensures ParentsOk(d, loc) ==> (ParentsOk(e, loc') <==> !((1 < h && SplitsKid(t, tr, x)) || below))
  {
    hide Shape, ParentsOk, Foot, FootAll, Apart, Opened;
    var i := InsertPos(tr.keys, x.hash);
    var (s, j) := Descend(t, tr, x);
    var split := |tr.kids[i].keys| == 2 * t - 1;
    ShapeKids(t, tr, h);
    ShapeKids(t, tr.kids[i], h - 1);
    KeepsTwice(d, m, e, Foot(loc), Foot(mid));
    OpenedKids(m, t, loc, mid, i, rhs, split);
    KidsRewritten(mid, loc', j);
    if ParentsOk(d, loc) {
      TopApart(loc);
      TopApart(mid);
      InsertLevel(d, m, e, t, loc, mid, loc', i, j, rhs, split, below);
    }
  }

  /** A full root: the old one gets a parent only at the very end, which is when its other half
      and whatever was split below it have theirs. */
  lemma GrownParents(d0: Disk, d1: Disk, d2: Disk, d3: Disk, d4: Disk, t: nat, loc: Loc, tr: Tree, h: nat, x: Entry,
                     top: nat, mid: Loc, loc': Loc, rhs: nat, j: nat, below: bool)
    requires 2 <= t && Shape(t, tr, h) && |tr.keys| == 2 * t - 1 && |loc.kids| == |tr.kids| && Apart(loc)
    requires var up := Loc(top, [loc]);
             && Apart(up) && KeepsParents(d0, d1, Foot(loc)) && KeepsParents(d1, d2, Foot(up))
             && Opened(d2, t, up, mid, 0, rhs, true) && Foot(up) <= Foot(mid) && Apart(mid)
    requires KeepsParents(d2, d3, Foot(mid)) && KidRewritten(mid, loc', j) && Foot(mid) <= Foot(loc')
    requires KeepsParents(d3, d4, Foot(loc') - {loc.bno, top}) && ParentIs(d4, loc.bno, top) && Apart(loc')
    requires Shape(t, Node([], [tr]), h + 1)
    requires var (s, q) := Descend(t, Node([], [tr]), x);
             && q == j < |s.kids|
             && (ParentsOk(d2, mid.kids[j]) ==> (ParentsOk(d3, loc'.kids[j]) <==> !below))
    ensures ParentsOk(d0, loc) ==> (ParentsOk(d4, loc') <==> !(0 < h || below))
  {
    hide Shape, ParentsOk, Foot, FootAll, Apart, Opened, SplitLoc;
    var up := Loc(top, [loc]);
    var (s, q) := Descend(t, Node([], [tr]), x);
    if ParentsOk(d0, loc) {
      ShapeKids(t, tr, h);
      FootOne(loc);
      TopApart(loc);
      TopApart(mid);
      TopApart(loc');
      TopApart(up);
      OwnBlock(loc);
      NotRhs(d2, t, up, mid, rhs);
      MidKids(d2, t, up, mid, rhs);
      var u, m := Named(d1, loc.bno, top), Named(d2, loc.bno, top);
      assert Opened(m, t, up, mid, 0, rhs, true) by { OpenedNamed(d2, t, up, mid, rhs, loc.bno, top); }
      ParentsSame(d0, u, loc);
      OnlyKidOk(u, up);
      BelowTop(mid, j, loc.bno);
      ParentsSame(d2, m, mid.kids[j]);
      BelowTop(loc', j, loc.bno);
      ParentsSame(d3, d4, loc'.kids[j]);
      InsertLevel(u, m, d4, t, up, mid, loc', 0, j, rhs, true, below);
    }
  }

  lemma NotRhs(d: Disk, t: nat, up: Loc, mid: Loc, rhs: nat)
    requires Opened(d, t, up, mid, 0, rhs, true)
    ensures rhs !in Foot(up)
  {
  }

  lemma MidKids(d: Disk, t: nat, up: Loc, mid: Loc, rhs: nat)
    requires |up.kids| == 1 && Opened(d, t, up, mid, 0, rhs, true)
    ensures |mid.kids| == 2 && mid.bno == up.bno && mid.kids[0].bno == up.kids[0].bno && mid.kids[1].bno == rhs
  {
    SplitKids(t, up, 0, rhs, 0);
    SplitKids(t, up, 0, rhs, 1);
  }

  lemma OpenedNamed(d: Disk, t: nat, up: Loc, mid: Loc, rhs: nat, b: nat, p: nat)
    requires Opened(d, t, up, mid, 0, rhs, true) && b != rhs
    ensures Opened(Named(d, b, p), t, up, mid, 0, rhs, true)
  {
    hide SplitLoc, Foot;
  }

  lemma OnlyKidOk(d: Disk, up: Loc)
    requires |up.kids| == 1 && ParentIs(d, up.kids[0].bno, up.bno) && ParentsOk(d, up.kids[0])
    ensures ParentsOk(d, up)
  {
  }

  /** Below child j there is neither the first child nor the node itself. */
  lemma BelowTop(mid: Loc, j: nat, b: nat)
    requires Apart(mid) && |mid.kids| == 2 && j < 2 && mid.kids[0].bno == b
    ensures b !in FootAll(mid.kids[j].kids) && mid.bno !in FootAll(mid.kids[j].kids)
    ensures FootAll(mid.kids[j].kids) <= FootAll(mid.kids)
  {
    KidBelow(mid, j);
    KidsApart(mid, j, 1 - j);
    FootAt(mid, 0);
  }

  /** The disk with another parent in one node. */
  function Named(d: Disk, b: nat, p: nat): Disk {
    if b in d && d[b].TreeBlock? then d[b := TreeBlock(d[b].node.(parent := p))] else d
  }

  lemma TopApart(loc: Loc)
    requires Apart(loc)
    ensures Foot(loc) == {loc.bno} + FootAll(loc.kids) && loc.bno !in FootAll(loc.kids)
  {
  }

  lemma KidsRewritten(mid: Loc, loc': Loc, j: nat)
    requires KidRewritten(mid, loc', j)
    ensures KidBnos(loc') == KidBnos(mid)
  {
    forall b
      ensures b in KidBnos(loc') <==> b in KidBnos(mid)
    {
      assert forall q | 0 <= q < |mid.kids| :: loc'.kids[q].bno == mid.kids[q].bno;
    }
  }

  /** Rewriting child j keeps all parent fields if it keeps those of the child. */
  lemma KeepsRest(d: Disk, e: Disk, t: nat, loc: Loc, tr: Tree, j: nat)
    requires Rep(d, t, loc, tr) && j < |loc.kids| && KeepsParents(d, e, Foot(loc.kids[j]))
             && Agree(d, e, FootRest(loc, j))
    ensures KeepsParents(d, e, Foot(loc))
  {
    FootTrees(d, t, loc, tr);
    FootAt(loc, j);
  }

  /** Counting a file touches no parent field. */
  lemma CountParents(d: Disk, e: Disk, t: nat, loc: Loc, tr: Tree)
    requires Rep(d, t, loc, tr) && loc.bno in d && d[loc.bno].TreeBlock?
    requires forall b | b in d && b != loc.bno :: b in e && e[b] == d[b]
    requires loc.bno in e && e[loc.bno].TreeBlock? && e[loc.bno].node.parent == d[loc.bno].node.parent
    ensures ParentsOk(d, loc) <==> ParentsOk(e, loc)
  {
    FootTrees(d, t, loc, tr);
    FootBelow(loc);
    ParentsSame(d, e, loc);
  }

  lemma SplitKeyCount(t: nat, tr: Tree, i: nat)
    requires 1 <= t && i < |tr.kids| == |tr.keys| + 1 && |tr.kids[i].keys| == 2 * t - 1
    ensures |SplitChild(t, tr, i).keys| == |tr.keys| + 1 && |SplitChild(t, tr, i).kids| == |tr.kids| + 1
  {
  }

  lemma SplitLocBno(t: nat, loc: Loc, i: nat, rhs: nat)
    requires i < |loc.kids|
    ensures SplitLoc(t, loc, i, rhs).bno == loc.bno
  {
  }

  lemma LeafRep(d: Disk, t: nat, loc: Loc, tr: Tree)
    requires loc.bno in d && d[loc.bno].TreeBlock? && Holds(t, d[loc.bno].node, loc, tr) && tr.kids == []
    ensures Rep(d, t, loc, tr)
  {
  }

  /** The fields of a node that only the root's routines write. */
  ghost predicate SameHeader(d: Disk, e: Disk, b: nat) {
    && b in d && d[b].TreeBlock? && b in e && e[b].TreeBlock?
    && e[b].node.parent == d[b].node.parent && e[b].node.treeName == d[b].node.treeName
    && e[b].node.nrOfFiles == d[b].node.nrOfFiles && e[b].node.root == d[b].node.root
  }
}
