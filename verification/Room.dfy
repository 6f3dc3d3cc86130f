/** Insertion when blocks run out: what of it is carried out, and what the caller is told. A
    split without a block stops the descent, but only the level right below the node that was
    called reports it (btree.h:284-299): deeper down the error is dropped. */
module Room {
  import opened Entries
  import opened BTree
  import opened BTreeRuns

  /** The descent splits a child of tr. */
  ghost predicate SplitsKid(t: nat, tr: Tree, e: Entry)
    requires 1 <= t && |tr.kids| == |tr.keys| + 1
  {
    |tr.kids[InsertPos(tr.keys, e.hash)].keys| == 2 * t - 1
  }

  /** The child of tr has to be split, and there is no block for that. */
  ghost predicate Refused(t: nat, tr: Tree, h: nat, e: Entry, m: nat)
    requires 2 <= t && Shape(t, tr, h)
  {
    0 < h && m == 0 && SplitsKid(t, tr, e)
  }

  /** insert_non_full with m free blocks. */
  ghost function Tried(t: nat, tr: Tree, h: nat, e: Entry, m: nat): (r: Tree)
    requires 2 <= t && Shape(t, tr, h) && |tr.keys| < 2 * t - 1
    ensures Shape(t, r, h) && |tr.keys| <= |r.keys|
    decreases h
  {
    if h == 0 then InsertNonFull(t, tr, h, e)
    else if Refused(t, tr, h, e, m) then tr
    else
      DescendShape(t, tr, h, e);
      var (s, j) := Descend(t, tr, e);
      Node(s.keys, s.kids[j := Tried(t, s.kids[j], h - 1, e, Rest(t, tr, e, m))])
  }

  /** The blocks left below tr. */
  ghost function Rest(t: nat, tr: Tree, e: Entry, m: nat): nat
    requires 1 <= t && |tr.kids| == |tr.keys| + 1
  {
    if SplitsKid(t, tr, e) && 0 < m then m - 1 else m
  }

  function Least(a: nat, b: nat): nat { if a <= b then a else b }

  lemma DescendSplits(t: nat, tr: Tree, h: nat, e: Entry)
    requires 2 <= t && 0 < h && Shape(t, tr, h) && |tr.keys| < 2 * t - 1
    ensures |tr.kids| == |tr.keys| + 1 && (Descend(t, tr, e).0 == tr <==> !SplitsKid(t, tr, e))
  {
    var i := InsertPos(tr.keys, e.hash);
    if SplitsKid(t, tr, e) {
      assert |SplitChild(t, tr, i).keys| == |tr.keys| + 1;
    }
  }

  /** The node the descent goes on with below tr. */
  ghost function Reached(t: nat, tr: Tree, h: nat, e: Entry): (r: Tree)
    requires 2 <= t && 0 < h && Shape(t, tr, h) && |tr.keys| < 2 * t - 1
    ensures Shape(t, r, h - 1) && |r.keys| < 2 * t - 1
  {
    DescendShape(t, tr, h, e);
    var (s, j) := Descend(t, tr, e);
    s.kids[j]
  }

  /** tr with c in its place. */
  ghost function WithReached(t: nat, tr: Tree, h: nat, e: Entry, c: Tree): Tree
    requires 2 <= t && 0 < h && Shape(t, tr, h) && |tr.keys| < 2 * t - 1
  {
    DescendShape(t, tr, h, e);
    var (s, j) := Descend(t, tr, e);
    Node(s.keys, s.kids[j := c])
  }

  /** One level of the descent: the blocks it takes, */
  lemma OneSplit(t: nat, tr: Tree, h: nat, e: Entry)
    requires 2 <= t && 0 < h && Shape(t, tr, h) && |tr.keys| < 2 * t - 1
    ensures |tr.kids| == |tr.keys| + 1
    ensures Splits(t, tr, h, e)
            == (if SplitsKid(t, tr, e) then 1 else 0) + Splits(t, Reached(t, tr, h, e), h - 1, e)
  {
    hide Shape, Descend, SplitsKid;
    DescendSplits(t, tr, h, e);
  }

  /** and what it does. */
  lemma OneLevel(t: nat, tr: Tree, h: nat, e: Entry, m: nat)
    requires 2 <= t && 0 < h && Shape(t, tr, h) && |tr.keys| < 2 * t - 1 && !Refused(t, tr, h, e, m)
    ensures |tr.kids| == |tr.keys| + 1
    ensures Tried(t, tr, h, e, m)
            == WithReached(t, tr, h, e, Tried(t, Reached(t, tr, h, e), h - 1, e, Rest(t, tr, e, m)))
  {
    hide Shape, Descend, SplitsKid;
    DescendSplits(t, tr, h, e);
  }

  lemma OneInsert(t: nat, tr: Tree, h: nat, e: Entry)
    requires 2 <= t && 0 < h && Shape(t, tr, h) && |tr.keys| < 2 * t - 1
    ensures InsertNonFull(t, tr, h, e)
            == WithReached(t, tr, h, e, InsertNonFull(t, Reached(t, tr, h, e), h - 1, e))
  {
    hide Shape, Descend;
  }

  /** With blocks enough there are enough for each level */
  lemma FitsStep(t: nat, tr: Tree, h: nat, e: Entry, m: nat)
    requires 2 <= t && 0 < h && Shape(t, tr, h) && |tr.keys| < 2 * t - 1 && Splits(t, tr, h, e) <= m
    ensures |tr.kids| == |tr.keys| + 1 && !Refused(t, tr, h, e, m)
    ensures Splits(t, Reached(t, tr, h, e), h - 1, e) <= Rest(t, tr, e, m)
  {
    hide Shape, Splits, Reached, SplitsKid;
    OneSplit(t, tr, h, e);
  }

  /** and it is the insertion. */
  lemma {:induction false} TriedFits(t: nat, tr: Tree, h: nat, e: Entry, m: nat)
    requires 2 <= t && Shape(t, tr, h) && |tr.keys| < 2 * t - 1 && Splits(t, tr, h, e) <= m
    ensures Tried(t, tr, h, e, m) == InsertNonFull(t, tr, h, e) && !Refused(t, tr, h, e, m)
    decreases h
  {
    if h > 0 {
      hide *;
      FitsStep(t, tr, h, e, m);
      OneLevel(t, tr, h, e, m);
      OneInsert(t, tr, h, e);
      TriedFits(t, Reached(t, tr, h, e), h - 1, e, Rest(t, tr, e, m));
    } else {
      hide Shape, Splits, InsertNonFull, SplitsKid;
    }
  }

  /** Without, splits are made as long as there are blocks, and the entry is not inserted. */
  lemma {:induction false} TriedShort(t: nat, tr: Tree, h: nat, e: Entry, m: nat)
    requires 2 <= t && Shape(t, tr, h) && |tr.keys| < 2 * t - 1 && Splits(t, tr, h, e) > m
    ensures Flat(Tried(t, tr, h, e, m)) == Flat(tr)
    decreases h
  {
    hide Flat, Shape, Descend, SplitsKid, Reached, WithReached, Splits;
    if h > 0 && !Refused(t, tr, h, e, m) {
      hide Tried;
      OneSplit(t, tr, h, e);
      OneLevel(t, tr, h, e, m);
      TriedShort(t, Reached(t, tr, h, e), h - 1, e, Rest(t, tr, e, m));
      SameBelow(t, tr, h, e, Tried(t, Reached(t, tr, h, e), h - 1, e, Rest(t, tr, e, m)));
    }
  }

  /** Splits change no sequence. */
  lemma SameBelow(t: nat, tr: Tree, h: nat, e: Entry, c: Tree)
    requires 2 <= t && 0 < h && Shape(t, tr, h) && |tr.keys| < 2 * t - 1 && Flat(c) == Flat(Reached(t, tr, h, e))
    ensures Flat(WithReached(t, tr, h, e, c)) == Flat(tr)
  {
    hide Flat;
    var i := InsertPos(tr.keys, e.hash);
    DescendShape(t, tr, h, e);
    var (s, j) := Descend(t, tr, e);
    if |tr.kids[i].keys| == 2 * t - 1 {
      SplitFlat(t, tr, h, i);
    }
    FlatAt(s, j);
    FlatReplace(s, j, c);
  }

  // ------------------------------------------------------------ at the root

  /** Blocks an insertion through the root takes. */
  ghost function RoomFor(t: nat, tr: Tree, h: nat, e: Entry): nat
    requires 2 <= t && Shape(t, tr, h)
  {
    if |tr.keys| == 2 * t - 1 then 1 + Splits(t, Node([], [tr]), h + 1, e) else Splits(t, tr, h, e)
  }

  lemma GrownShape(t: nat, tr: Tree, h: nat)
    requires 2 <= t && Shape(t, tr, h) && |tr.keys| == 2 * t - 1
    ensures Shape(t, Node([], [tr]), h + 1)
  {
  }

  /** Below the new root of a full one: the half the descent goes on with. */
  ghost function Half(t: nat, tr: Tree, h: nat, e: Entry): (r: Tree)
    requires 2 <= t && Shape(t, tr, h) && |tr.keys| == 2 * t - 1
    ensures Shape(t, r, h) && |r.keys| < 2 * t - 1
  {
    GrownShape(t, tr, h);
    Reached(t, Node([], [tr]), h + 1, e)
  }

  /** The new root with c in its place. */
  ghost function OverHalf(t: nat, tr: Tree, h: nat, e: Entry, c: Tree): Tree
    requires 2 <= t && Shape(t, tr, h) && |tr.keys| == 2 * t - 1
  {
    GrownShape(t, tr, h);
    WithReached(t, Node([], [tr]), h + 1, e, c)
  }

  /** Whether node_insert reports success. */
  ghost predicate Accepted(t: nat, tr: Tree, h: nat, e: Entry, m: nat)
    requires 2 <= t && Shape(t, tr, h)
  {
    if |tr.keys| < 2 * t - 1 then !Refused(t, tr, h, e, m)
    else 2 <= m && !Refused(t, Half(t, tr, h, e), h, e, m - 2)
  }

  /** The tree at the directory's root afterwards. If an insertion under a new root is
      refused the directory keeps its old root, of which half is gone by then. */
  ghost function TriedTree(t: nat, tr: Tree, h: nat, e: Entry, m: nat): (r: Tree)
    requires 2 <= t && Shape(t, tr, h)
    ensures Shape(t, r, TriedHeight(t, tr, h, e, m))
  {
    if |tr.keys| < 2 * t - 1 then Tried(t, tr, h, e, m)
    else if m < 2 then tr
    else if Accepted(t, tr, h, e, m) then
      GrownShape(t, tr, h);
      Tried(t, Node([], [tr]), h + 1, e, m - 1)
    else
      HalvesGlue(t, tr, h);
      LowHalf(t, tr)
  }

  ghost function TriedHeight(t: nat, tr: Tree, h: nat, e: Entry, m: nat): nat
    requires 2 <= t && Shape(t, tr, h)
  {
    if |tr.keys| == 2 * t - 1 && Accepted(t, tr, h, e, m) then h + 1 else h
  }

  /** Blocks taken. */
  ghost function Taken(t: nat, tr: Tree, h: nat, e: Entry, m: nat): nat
    requires 2 <= t && Shape(t, tr, h)
  {
    Least(RoomFor(t, tr, h, e), m)
  }

  /** What becomes of an insertion with m free blocks. With room it is made. Without, it is
      never made; if success is reported all the same, the directory has lost nothing, and if
      not, it has lost everything from the middle key of its root on exactly if the root was
      full and two blocks were free. */
  lemma Outcome(t: nat, tr: Tree, h: nat, e: Entry, m: nat)
    requires 2 <= t && Shape(t, tr, h) && (0 < h ==> 1 <= |tr.keys|)
    ensures RoomFor(t, tr, h, e) <= m ==>
              Accepted(t, tr, h, e, m) && TriedTree(t, tr, h, e, m) == InsertTree(t, tr, h, e)
    ensures RoomFor(t, tr, h, e) > m && Accepted(t, tr, h, e, m) ==> Flat(TriedTree(t, tr, h, e, m)) == Flat(tr)
    ensures !Accepted(t, tr, h, e, m) ==>
              Flat(TriedTree(t, tr, h, e, m)) == Flat(if |tr.keys| == 2 * t - 1 && 2 <= m then LowHalf(t, tr) else tr)
    ensures |tr.keys| == 2 * t - 1 ==> |Flat(LowHalf(t, tr))| < |Flat(tr)|
  {
    hide Flat, InsertNonFull, Splits, Tried, Descend;
    if |tr.keys| < 2 * t - 1 {
      if RoomFor(t, tr, h, e) <= m {
        TriedFits(t, tr, h, e, m);
      } else {
        TriedShort(t, tr, h, e, m);
      }
    } else {
      var root := Node([], [tr]);
      GrownShape(t, tr, h);
      RootLevel(t, tr, h, e, m);
      RootSplits(t, tr, h, e, m);
      HalfLess(t, tr, h);
      if RoomFor(t, tr, h, e) <= m {
        TriedFits(t, root, h + 1, e, m - 1);
        TriedFits(t, Half(t, tr, h, e), h, e, m - 2);
      } else if Accepted(t, tr, h, e, m) {
        TriedShort(t, root, h + 1, e, m - 1);
      }
    }
  }

  /** Blocks for the splits at the root and one level below, of which the caller hears. */
  ghost function TopNeeds(t: nat, tr: Tree, h: nat, e: Entry): nat
    requires 2 <= t && Shape(t, tr, h)
  {
    if |tr.keys| < 2 * t - 1 then (if 0 < h && SplitsKid(t, tr, e) then 1 else 0)
    else 2 + if 0 < h && SplitsKid(t, Half(t, tr, h, e), e) then 1 else 0
  }

  /** Success is reported if and only if there are blocks for those; so an insertion is lost in
      silence exactly if there are blocks for those and not for all. */
  lemma ReportExact(t: nat, tr: Tree, h: nat, e: Entry, m: nat)
    requires 2 <= t && Shape(t, tr, h)
    ensures TopNeeds(t, tr, h, e) <= RoomFor(t, tr, h, e)
    ensures Accepted(t, tr, h, e, m) <==> TopNeeds(t, tr, h, e) <= m
  {
    hide Splits, SplitsKid, Half;
    if |tr.keys| == 2 * t - 1 {
      RootLevel(t, tr, h, e, m);
      if 0 < h { OneSplit(t, Half(t, tr, h, e), h, e); }
    } else if 0 < h {
      OneSplit(t, tr, h, e);
    }
  }

  lemma HalfLess(t: nat, tr: Tree, h: nat)
    requires 2 <= t && Shape(t, tr, h) && |tr.keys| == 2 * t - 1
    ensures |Flat(LowHalf(t, tr))| < |Flat(tr)|
  {
    hide Flat;
    HalvesGlue(t, tr, h);
    FlatGlue(LowHalf(t, tr), tr.keys[t - 1], HighHalf(t, tr));
  }

  lemma RootLevel(t: nat, tr: Tree, h: nat, e: Entry, m: nat)
    requires 2 <= t && Shape(t, tr, h) && |tr.keys| == 2 * t - 1
    ensures Shape(t, Node([], [tr]), h + 1) && Flat(Node([], [tr])) == Flat(tr)
    ensures RoomFor(t, tr, h, e) == 2 + Splits(t, Half(t, tr, h, e), h, e)
  {
    GrownShape(t, tr, h);
    OneSplit(t, Node([], [tr]), h + 1, e);
    SingleFlat(tr);
  }

  lemma RootSplits(t: nat, tr: Tree, h: nat, e: Entry, m: nat)
    requires 2 <= t && Shape(t, tr, h) && Shape(t, Node([], [tr]), h + 1) && |tr.keys| == 2 * t - 1
    ensures |Node([], [tr]).kids| == |Node([], [tr]).keys| + 1 && SplitsKid(t, Node([], [tr]), e)
    ensures 2 <= m ==> !Refused(t, Node([], [tr]), h + 1, e, m - 1)
  {
  }

  lemma SingleFlat(tr: Tree)
    ensures Flat(Node([], [tr])) == Flat(tr)
  {
  }

  /** So the hash is bound afterwards exactly if there was room; what is reported to be
      inserted is counted, and the count is right exactly in that case; a refusal leaves as
      many entries as are counted unless half of the root is lost. */
  lemma BoundExact(t: nat, d: Dir, e: Entry, m: nat)
    requires Valid(t, d) && e.hash !in Contents(d)
    ensures var f := Flat(TriedTree(t, d.tree, d.height, e, m)); var fits := RoomFor(t, d.tree, d.height, e) <= m;
            && (e.hash in Dict(f) <==> fits)
            && (Accepted(t, d.tree, d.height, e, m) ==> (|f| == d.nrOfFiles + 1 <==> fits))
            && (!Accepted(t, d.tree, d.height, e, m) ==>
                  (|f| == d.nrOfFiles <==> !(|d.tree.keys| == 2 * t - 1 && 2 <= m)))
  {
    hide Flat, Shape, Sorted, InsertTree, RoomFor, TriedTree, Accepted, Dict;
    var tr, h := d.tree, d.height;
    Outcome(t, tr, h, e, m);
    InsertCorrect(t, d, e);
    if |tr.keys| == 2 * t - 1 {
      HalvesGlue(t, tr, h);
      FlatGlue(LowHalf(t, tr), tr.keys[t - 1], HighHalf(t, tr));
      DictKeys(Flat(tr), e.hash);
      DictKeys(Flat(LowHalf(t, tr)), e.hash);
      assert forall i | 0 <= i < |Flat(LowHalf(t, tr))| :: Flat(LowHalf(t, tr))[i] == Flat(tr)[i];
    }
  }

  // ------------------------------------------------------------- it happens

  function Key(x: nat): Entry { Entry(1, x, 0, 0) }

  function Leaf(xs: seq<nat>): Tree { Node(seq(|xs|, i requires 0 <= i < |xs| => Key(xs[i])), []) }

  /** Two levels above a full leaf, neither node full. */
  function Deep(): Tree {
    Node([Key(60)], [Node([Key(40)], [Leaf([10, 20, 30]), Leaf([50])]), Node([Key(80)], [Leaf([70]), Leaf([90])])])
  }

  /** With no block free the insertion of 15 is reported to be made, and is not. */
  lemma SilentlyLost()
    ensures Shape(2, Deep(), 2) && Accepted(2, Deep(), 2, Key(15), 0) && TriedTree(2, Deep(), 2, Key(15), 0) == Deep()
  {
  }

  /** A full root over a full leaf. */
  function Full(): Tree {
    Node([Key(40), Key(60), Key(80)], [Leaf([10, 20, 30]), Leaf([50]), Leaf([70]), Leaf([90])])
  }

  /** With two blocks free the insertion of 15 is refused, and the directory ends before 60. */
  lemma HalfLost()
    ensures Shape(2, Full(), 1) && !Accepted(2, Full(), 1, Key(15), 2)
    ensures TriedTree(2, Full(), 1, Key(15), 2) == Node([Key(40)], [Leaf([10, 20, 30]), Leaf([50])])
  {
    FullHalves();
    assert SplitsKid(2, Half(2, Full(), 1, Key(15)), Key(15));
  }

  lemma FullHalves()
    ensures Shape(2, Full(), 1) && |Full().keys| == 3
    ensures LowHalf(2, Full()) == Node([Key(40)], [Leaf([10, 20, 30]), Leaf([50])])
    ensures Half(2, Full(), 1, Key(15)) == LowHalf(2, Full())
  {
    var s := SplitChild(2, Node([], [Full()]), 0);
    assert s.keys == [Key(60)] && s.kids == [LowHalf(2, Full()), HighHalf(2, Full())];
    assert Descend(2, Node([], [Full()]), Key(15)) == (s, 0);
  }
}
