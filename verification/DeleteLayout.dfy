/** Where a deletion puts the nodes of a tree, and what that does to their parent fields: merging
    and stealing move children to another node without telling them (btree.h:562-830). */
module DeleteLayout {
  import opened Entries
  import opened BTree
  import opened BTreeDelete
  import opened Blocks
  import opened Parents
  import opened StaleSlots
  import opened DiskTree

  // ------------------------------------------------------------- new layouts

  /** Children i and i+1 on the block of child i. */
  function MergeLoc(loc: Loc, i: nat): Loc
    requires i + 1 < |loc.kids|
  {
    Loc(loc.bno, loc.kids[..i] + [Loc(loc.kids[i].bno, loc.kids[i].kids + loc.kids[i + 1].kids)] + loc.kids[i + 2..])
  }

  /** Two neighbouring children laid out anew. */
  function PairLoc(loc: Loc, i: nat, a: Loc, b: Loc): Loc
    requires i + 1 < |loc.kids|
  {
    Loc(loc.bno, loc.kids[i := a][i + 1 := b])
  }

  /** The last child of a moved in front of b. */
  function StealPrevLoc(loc: Loc, i: nat): Loc
    requires 1 <= i < |loc.kids|
  {
    var a, b := loc.kids[i - 1], loc.kids[i];
    if a.kids == [] then loc
    else PairLoc(loc, i - 1, Loc(a.bno, a.kids[..|a.kids| - 1]), Loc(b.bno, a.kids[|a.kids| - 1..] + b.kids))
  }

  /** The first child of b moved behind a. */
  function StealNextLoc(loc: Loc, i: nat): Loc
    requires i + 1 < |loc.kids|
  {
    var a, b := loc.kids[i], loc.kids[i + 1];
    if b.kids == [] then loc
    else PairLoc(loc, i, Loc(a.bno, a.kids + b.kids[..1]), Loc(b.bno, b.kids[1..]))
  }

  /** Two children with their blocks, apart from everything else. */
  lemma PairAt(loc: Loc, i: nat)
    requires i + 1 < |loc.kids| && Apart(loc)
    ensures var a, b := loc.kids[i], loc.kids[i + 1];
            && Apart(a) && Apart(b) && Foot(a) !! Foot(b) && loc.bno !in Foot(a) + Foot(b)
            && FootAll(loc.kids[i..i + 2]) == Foot(a) + Foot(b) && Foot(a) + Foot(b) <= Foot(loc)
            && a.bno in Foot(a) && b.bno in Foot(b)
            && ApartAll(a.kids) && ApartAll(b.kids) && FootAll(a.kids) !! FootAll(b.kids)
            && Foot(a) == {a.bno} + FootAll(a.kids) && a.bno !in FootAll(a.kids)
            && Foot(b) == {b.bno} + FootAll(b.kids) && b.bno !in FootAll(b.kids)
  {
    var a, b := loc.kids[i], loc.kids[i + 1];
    assert loc.kids[i..i + 2] == [a, b];
    PairSplit(loc, i);
    FootTwo(a, b);
  }

  lemma PairSplit(loc: Loc, i: nat)
    requires i + 1 < |loc.kids| && Apart(loc)
    ensures ApartAll(loc.kids[i..i + 2]) && FootAll(loc.kids[i..i + 2]) <= Foot(loc) - {loc.bno}
  {
    hide FootAll, ApartAll;
    var x, m, y := loc.kids[..i], loc.kids[i..i + 2], loc.kids[i + 2..];
    assert loc.kids == x + (m + y);
    FootAppend(x, m + y);
    FootAppend(m, y);
    ApartAppend(x, m + y);
    ApartAppend(m, y);
  }

  lemma MergeApart(loc: Loc, i: nat)
    requires i + 1 < |loc.kids| && Apart(loc)
    ensures Apart(MergeLoc(loc, i)) && Foot(MergeLoc(loc, i)) == Foot(loc) - {loc.kids[i + 1].bno}
  {
    hide FootAll, ApartAll, Foot, Apart;
    var a, b := loc.kids[i], loc.kids[i + 1];
    var m := Loc(a.bno, a.kids + b.kids);
    PairAt(loc, i);
    MergedApart(a, b);
    FootOne(m);
    ReplaceRun(loc, i, 2, [m], {});
    FootSub(loc, i);
  }

  /** One node on the blocks of two, the second one's own block given up. */
  lemma MergedApart(a: Loc, b: Loc)
    requires Apart(a) && Apart(b) && Foot(a) !! Foot(b)
    ensures var m := Loc(a.bno, a.kids + b.kids); Apart(m) && Foot(m) == Foot(a) + Foot(b) - {b.bno}
  {
    hide FootAll, ApartAll;
    FootAppend(a.kids, b.kids);
    ApartAppend(a.kids, b.kids);
  }

  lemma PairApart(loc: Loc, i: nat, a: Loc, b: Loc)
    requires i + 1 < |loc.kids| && Apart(loc)
    requires Apart(a) && Apart(b) && Foot(a) !! Foot(b)
    requires Foot(a) + Foot(b) == Foot(loc.kids[i]) + Foot(loc.kids[i + 1])
    ensures Apart(PairLoc(loc, i, a, b)) && Foot(PairLoc(loc, i, a, b)) == Foot(loc)
  {
    PairAt(loc, i);
    hide FootAll, ApartAll, Foot, Apart;
    FootTwo(a, b);
    ReplaceRun(loc, i, 2, [a, b], {});
    assert loc.kids[i := a][i + 1 := b] == loc.kids[..i] + [a, b] + loc.kids[i + 2..];
    FootSub(loc, i);
  }

  lemma FootSub(loc: Loc, i: nat)
    requires i + 1 < |loc.kids| && Apart(loc)
    ensures Foot(loc) - FootAll(loc.kids[i..i + 2]) + FootAll(loc.kids[i..i + 2]) == Foot(loc)
  {
    PairSplit(loc, i);
  }

  lemma StealPrevApart(loc: Loc, i: nat)
    requires 1 <= i < |loc.kids| && Apart(loc)
    ensures Apart(StealPrevLoc(loc, i)) && Foot(StealPrevLoc(loc, i)) == Foot(loc)
            && StealPrevLoc(loc, i).bno == loc.bno
  {
    var a, b := loc.kids[i - 1], loc.kids[i];
    if a.kids != [] {
      var n := |a.kids| - 1;
      PairAt(loc, i - 1);
      MoveKids(a, b, n);
      hide FootAll, ApartAll, Foot, Apart;
      PairApart(loc, i - 1, Loc(a.bno, a.kids[..n]), Loc(b.bno, a.kids[n..] + b.kids));
    }
  }

  /** Children n.. of a moved in front of those of b. */
  lemma MoveKids(a: Loc, b: Loc, n: nat)
    requires n <= |a.kids| && Apart(a) && Apart(b) && Foot(a) !! Foot(b)
    ensures var a', b' := Loc(a.bno, a.kids[..n]), Loc(b.bno, a.kids[n..] + b.kids);
            Apart(a') && Apart(b') && Foot(a') !! Foot(b') && Foot(a') + Foot(b') == Foot(a) + Foot(b)
  {
    hide FootAll, ApartAll;
    assert a.kids == a.kids[..n] + a.kids[n..];
    FootAppend(a.kids[..n], a.kids[n..]);
    ApartAppend(a.kids[..n], a.kids[n..]);
    FootAppend(a.kids[n..], b.kids);
    ApartAppend(a.kids[n..], b.kids);
  }

  lemma StealNextApart(loc: Loc, i: nat)
    requires i + 1 < |loc.kids| && Apart(loc)
    ensures Apart(StealNextLoc(loc, i)) && Foot(StealNextLoc(loc, i)) == Foot(loc)
            && StealNextLoc(loc, i).bno == loc.bno
  {
    var a, b := loc.kids[i], loc.kids[i + 1];
    if b.kids != [] {
      PairAt(loc, i);
      hide FootAll, ApartAll;
      assert b.kids == b.kids[..1] + b.kids[1..];
      FootAppend(b.kids[..1], b.kids[1..]);
      ApartAppend(b.kids[..1], b.kids[1..]);
      FootAppend(a.kids, b.kids[..1]);
      ApartAppend(a.kids, b.kids[..1]);
      PairApart(loc, i, Loc(a.bno, a.kids + b.kids[..1]), Loc(b.bno, b.kids[1..]));
    }
  }

  /** What the descent does to the child lists of a node's children. */
  datatype Shift = Stay | Merged | FromPrev | FromNext

  function ShiftOf(t: nat, tr: Tree, x: nat): Shift
    requires 1 <= t && 1 <= |tr.keys| && |tr.kids| == |tr.keys| + 1
  {
    var i := FindKey(tr.keys, x);
    if i < |tr.keys| && tr.keys[i].hash == x then
      if |tr.kids[i].keys| >= t || |tr.kids[i + 1].keys| >= t then Stay else Merged
    else if |tr.kids[i].keys| >= t then Stay
    else if i > 0 && |tr.kids[i - 1].keys| >= t then FromPrev
    else if i < |tr.keys| && |tr.kids[i + 1].keys| >= t then FromNext
    else Merged
  }

  /** The layout of the node the descent has prepared. */
  function PrepareLoc(t: nat, loc: Loc, tr: Tree, x: nat): Loc
    requires 1 <= t && 1 <= |tr.keys| && |loc.kids| == |tr.kids| == |tr.keys| + 1
  {
    match ShiftOf(t, tr, x)
    case Stay => loc
    case Merged => var c := Prepare(t, tr, x).child; if c + 1 < |loc.kids| then MergeLoc(loc, c) else loc
    case FromPrev => StealPrevLoc(loc, FindKey(tr.keys, x))
    case FromNext => StealNextLoc(loc, FindKey(tr.keys, x))
  }

  /** The layout after a deletion. */
  ghost function DeleteLoc(t: nat, loc: Loc, tr: Tree, h: nat, x: nat): Loc
    requires 2 <= t && Shape(t, tr, h) && (0 < h ==> 1 <= |tr.keys|)
    decreases h
  {
    if h == 0 || |loc.kids| != |tr.kids| then loc
    else
      PrepareShape(t, tr, h, x);
      var st, mid := Prepare(t, tr, x), PrepareLoc(t, loc, tr, x);
      if st.child >= |mid.kids| then mid
      else mid.(kids := mid.kids[st.child := DeleteLoc(t, mid.kids[st.child], st.node.kids[st.child], h - 1, st.hash)])
  }

  /** The last child of the node is merged into the one before it. */
  predicate LastGone(t: nat, tr: Tree, x: nat)
    requires 1 <= t && 1 <= |tr.keys| && |tr.kids| == |tr.keys| + 1
  {
    ShiftOf(t, tr, x) == Merged && Prepare(t, tr, x).child + 1 == |tr.keys|
  }

  /** The deletion leaves a node with a child that names another one: somewhere on the way down
      inner nodes are merged, or a child is stolen and not merged away one level below. */
  ghost predicate MovesInner(t: nat, tr: Tree, h: nat, x: nat)
    requires 2 <= t && Shape(t, tr, h) && (0 < h ==> 1 <= |tr.keys|)
    decreases h
  {
    2 <= h &&
    (PrepareShape(t, tr, h, x);
     var st := Prepare(t, tr, x);
     var c := st.node.kids[st.child];
     match ShiftOf(t, tr, x)
     case Merged => true
     case FromPrev => true
     case FromNext => !LastGone(t, c, st.hash) || MovesInner(t, c, h - 1, st.hash)
     case Stay => MovesInner(t, c, h - 1, st.hash))
  }

  // ------------------------------------------------------------ same shapes

  /** The layout has the shape of the tree. */
  ghost predicate Fits(loc: Loc, tr: Tree)
    decreases tr
  {
    |loc.kids| == |tr.kids| && forall i | 0 <= i < |tr.kids| :: Fits(loc.kids[i], tr.kids[i])
  }

  lemma {:induction false} RepFits(d: Disk, t: nat, loc: Loc, tr: Tree)
    requires Rep(d, t, loc, tr)
    ensures Fits(loc, tr)
    decreases tr
  {
    forall i | 0 <= i < |tr.kids|
      ensures Fits(loc.kids[i], tr.kids[i])
    {
      RepFits(d, t, loc.kids[i], tr.kids[i]);
    }
  }

  lemma FitsMerge(loc: Loc, tr: Tree, i: nat)
    requires Fits(loc, tr) && |tr.kids| == |tr.keys| + 1 && i < |tr.keys|
    ensures Fits(MergeLoc(loc, i), Merge(tr, i))
    ensures |MergeLoc(loc, i).kids| == |loc.kids| - 1 && MergeLoc(loc, i).bno == loc.bno
    ensures forall q | 0 <= q < |loc.kids| - 1 && q != i ::
              MergeLoc(loc, i).kids[q] == loc.kids[if q < i then q else q + 1]
    ensures MergeLoc(loc, i).kids[i] == Loc(loc.kids[i].bno, loc.kids[i].kids + loc.kids[i + 1].kids)
  {
    var m, n := MergeLoc(loc, i), Merge(tr, i);
    FitsGlue(loc.kids[i], tr.kids[i], tr.keys[i], loc.kids[i + 1], tr.kids[i + 1]);
    forall q | 0 <= q < |n.kids|
      ensures Fits(m.kids[q], n.kids[q])
    {
      if q < i { assert n.kids[q] == tr.kids[q]; } else if q > i { assert n.kids[q] == tr.kids[q + 1]; }
    }
  }

  lemma FitsGlue(a: Loc, ta: Tree, x: Entry, b: Loc, tb: Tree)
    requires Fits(a, ta) && Fits(b, tb)
    ensures Fits(Loc(a.bno, a.kids + b.kids), Glue(ta, x, tb))
  {
  }

  lemma FitsPair(loc: Loc, tr: Tree, i: nat, a: Loc, b: Loc, ta: Tree, x: Entry, tb: Tree)
    requires Fits(loc, tr) && i < |tr.keys| && i + 1 < |tr.kids| && Fits(a, ta) && Fits(b, tb)
    ensures Fits(PairLoc(loc, i, a, b), WithPair(tr, i, ta, x, tb))
  {
  }

  /** The shape of a tree of height h, where a deletion needs it. */
  lemma Kinds(t: nat, tr: Tree, h: nat, loc: Loc)
    requires 2 <= t && 0 < h && Shape(t, tr, h) && Fits(loc, tr)
    ensures |loc.kids| == |tr.kids| == |tr.keys| + 1
    ensures forall i | 0 <= i < |tr.kids| ::
              && Shape(t, tr.kids[i], h - 1) && t - 1 <= |tr.kids[i].keys| && Fits(loc.kids[i], tr.kids[i])
              && |loc.kids[i].kids| == |tr.kids[i].kids|
              && if h == 1 then tr.kids[i].kids == [] else |tr.kids[i].kids| == |tr.kids[i].keys| + 1
  {
  }

  lemma FitsStealPrev(t: nat, loc: Loc, tr: Tree, h: nat, i: nat)
    requires 2 <= t && 0 < h && Shape(t, tr, h) && Fits(loc, tr) && 1 <= i < |tr.kids| && 1 <= |tr.kids[i - 1].keys|
    ensures Fits(StealPrevLoc(loc, i), StealPrev(tr, i))
  {
    Kinds(t, tr, h, loc);
    var a, b, ta, tb := loc.kids[i - 1], loc.kids[i], tr.kids[i - 1], tr.kids[i];
    var s, n := StealPrev(tr, i), |ta.keys| - 1;
    if h == 1 {
      FitsPair(loc, tr, i - 1, a, b, s.kids[i - 1], s.keys[i - 1], s.kids[i]);
      assert PairLoc(loc, i - 1, a, b) == loc;
    } else {
      FitsPair(loc, tr, i - 1, Loc(a.bno, a.kids[..n + 1]), Loc(b.bno, a.kids[n + 1..] + b.kids),
               s.kids[i - 1], s.keys[i - 1], s.kids[i]);
    }
  }

  lemma FitsStealNext(t: nat, loc: Loc, tr: Tree, h: nat, i: nat)
    requires 2 <= t && 0 < h && Shape(t, tr, h) && Fits(loc, tr) && i < |tr.keys| && 1 <= |tr.kids[i + 1].keys|
    ensures Fits(StealNextLoc(loc, i), StealNext(tr, i))
  {
    Kinds(t, tr, h, loc);
    var a, b := loc.kids[i], loc.kids[i + 1];
    var s := StealNext(tr, i);
    if h == 1 {
      FitsPair(loc, tr, i, a, b, s.kids[i], s.keys[i], s.kids[i + 1]);
      assert PairLoc(loc, i, a, b) == loc;
    } else {
      FitsPair(loc, tr, i, Loc(a.bno, a.kids + b.kids[..1]), Loc(b.bno, b.kids[1..]), s.kids[i], s.keys[i],
               s.kids[i + 1]);
    }
  }

  lemma FitsKids(loc: Loc, tr: Tree, tr': Tree)
    requires Fits(loc, tr) && tr'.kids == tr.kids
    ensures Fits(loc, tr')
  {
  }

  /** What a prepared node is, case by case. */
  lemma PrepareIs(t: nat, tr: Tree, x: nat)
    requires 1 <= t && 1 <= |tr.keys| && |tr.kids| == |tr.keys| + 1
    ensures var i, st := FindKey(tr.keys, x), Prepare(t, tr, x);
            match ShiftOf(t, tr, x)
            case Stay => st.node.kids == tr.kids && |st.node.keys| == |tr.keys| && st.child < |tr.kids|
            case Merged =>
              && st.child < |tr.keys| && st.node == Merge(tr, st.child) && st.hash == x
              && |tr.kids[st.child].keys| < t && |tr.kids[st.child + 1].keys| < t
            case FromPrev =>
              && 1 <= i && st.child == i && st.node == StealPrev(tr, i) && st.hash == x
              && t <= |tr.kids[i - 1].keys|
            case FromNext =>
              && i < |tr.keys| && st.child == i && st.node == StealNext(tr, i) && st.hash == x
              && t <= |tr.kids[i + 1].keys|
  {
    hide Merge, StealPrev, StealNext, MaxEntry, MinEntry;
  }

  lemma FitsPrepare(t: nat, loc: Loc, tr: Tree, h: nat, x: nat)
    requires 2 <= t && 0 < h && Shape(t, tr, h) && 1 <= |tr.keys| && Fits(loc, tr)
    ensures |loc.kids| == |tr.kids| == |tr.keys| + 1
    ensures Fits(PrepareLoc(t, loc, tr, x), Prepare(t, tr, x).node) && PrepareLoc(t, loc, tr, x).bno == loc.bno
  {
    Kinds(t, tr, h, loc);
    hide Fits, Merge, StealPrev, StealNext, MergeLoc, StealPrevLoc, StealNextLoc, Prepare, ShiftOf, Shape;
    PrepareIs(t, tr, x);
    var i, st := FindKey(tr.keys, x), Prepare(t, tr, x);
    match ShiftOf(t, tr, x)
    case Stay => FitsKids(loc, tr, st.node);
    case Merged => FitsMerge(loc, tr, st.child);
    case FromPrev =>
      FitsStealPrev(t, loc, tr, h, i);
      LocBnos(loc, i);
    case FromNext =>
      FitsStealNext(t, loc, tr, h, i);
      LocBnos(loc, i);
  }

  lemma LocBnos(loc: Loc, i: nat)
    requires i < |loc.kids|
    ensures 1 <= i ==> StealPrevLoc(loc, i).bno == loc.bno
    ensures i + 1 < |loc.kids| ==> StealNextLoc(loc, i).bno == loc.bno
  {
  }

  // ----------------------------------------------------------- parent fields

  ghost predicate TopOk(d: Disk, loc: Loc) {
    forall i | 0 <= i < |loc.kids| :: ParentIs(d, loc.kids[i].bno, loc.bno)
  }

  ghost predicate BelowOk(d: Disk, loc: Loc) {
    forall i | 0 <= i < |loc.kids| :: ParentsOk(d, loc.kids[i])
  }

  lemma OkParts(d: Disk, loc: Loc)
    ensures ParentsOk(d, loc) <==> TopOk(d, loc) && BelowOk(d, loc)
  {
  }

  /** Children other than i and j are the same, and those two still have their blocks. */
  ghost predicate TwoChanged(loc: Loc, r: Loc, i: nat, j: nat) {
    && |r.kids| == |loc.kids|
    && forall q | 0 <= q < |loc.kids| ::
         r.kids[q].bno == loc.kids[q].bno && (q != i && q != j ==> r.kids[q] == loc.kids[q])
  }

  lemma StealKids(loc: Loc, i: nat)
    requires i < |loc.kids|
    ensures 1 <= i ==> TwoChanged(loc, StealPrevLoc(loc, i), i - 1, i)
    ensures i + 1 < |loc.kids| ==> TwoChanged(loc, StealNextLoc(loc, i), i, i + 1)
  {
  }

  /** The blocks of the children before and after: those before, less the one behind child c if
      it is gone. */
  ghost predicate KidsLeft(loc: Loc, r: Loc, gone: bool, c: nat) {
    && r.bno == loc.bno && |r.kids| == |loc.kids| - (if gone then 1 else 0)
    && forall q | 0 <= q < |r.kids| :: (gone && q > c ==> q + 1 < |loc.kids|)
         && r.kids[q].bno == loc.kids[if gone && q > c then q + 1 else q].bno
  }

  lemma Counts(t: nat, tr: Tree, h: nat, loc: Loc)
    requires 2 <= t && 0 < h && Shape(t, tr, h) && Fits(loc, tr)
    ensures |loc.kids| == |tr.kids| == |tr.keys| + 1
  {
  }

  /** The prepared layout, case by case. */
  lemma PrepareLocIs(t: nat, loc: Loc, tr: Tree, x: nat)
    requires 1 <= t && 1 <= |tr.keys| && |loc.kids| == |tr.kids| == |tr.keys| + 1
    ensures var c, mid := Prepare(t, tr, x).child, PrepareLoc(t, loc, tr, x);
            match ShiftOf(t, tr, x)
            case Stay => mid == loc && c < |loc.kids|
            case Merged => c + 1 < |loc.kids| && mid == MergeLoc(loc, c)
            case FromPrev => 1 <= c < |loc.kids| && mid == StealPrevLoc(loc, c)
            case FromNext => c + 1 < |loc.kids| && mid == StealNextLoc(loc, c)
  {
    PrepareIs(t, tr, x);
    hide Merge, StealPrev, StealNext, MergeLoc, StealPrevLoc, StealNextLoc, Prepare, ShiftOf;
  }

  lemma PrepareKids(t: nat, loc: Loc, tr: Tree, h: nat, x: nat)
    requires 2 <= t && 0 < h && Shape(t, tr, h) && 1 <= |tr.keys| && Fits(loc, tr)
    ensures |loc.kids| == |tr.kids| == |tr.keys| + 1
    ensures var mid := PrepareLoc(t, loc, tr, x);
            KidsLeft(loc, mid, ShiftOf(t, tr, x) == Merged, Prepare(t, tr, x).child)
  {
    Counts(t, tr, h, loc);
    PrepareLocIs(t, loc, tr, x);
    FitsPrepare(t, loc, tr, h, x);
    hide Shape, Fits, MergeLoc, StealPrevLoc, StealNextLoc, Prepare, ShiftOf, PrepareLoc;
    var c := Prepare(t, tr, x).child;
    match ShiftOf(t, tr, x)
    case Stay =>
    case Merged => FitsMerge(loc, tr, c);
    case FromPrev => StealKids(loc, c);
    case FromNext => StealKids(loc, c);
  }

  lemma KidReplaced(loc: Loc, mid: Loc, j: nat, c: Loc, gone: bool, k: nat)
    requires KidsLeft(loc, mid, gone, k) && j < |mid.kids| && c.bno == mid.kids[j].bno
    ensures KidsLeft(loc, mid.(kids := mid.kids[j := c]), gone, k)
  {
  }

  /** A deletion takes at most one child from the node, by a merge. */
  lemma {:induction false} DeleteKids(t: nat, loc: Loc, tr: Tree, h: nat, x: nat)
    requires 2 <= t && Shape(t, tr, h) && (0 < h ==> 1 <= |tr.keys|) && Fits(loc, tr)
    ensures DeleteLoc(t, loc, tr, h, x).bno == loc.bno
    ensures h == 0 ==> DeleteLoc(t, loc, tr, h, x) == loc && loc.kids == []
    ensures 0 < h ==> |loc.kids| == |tr.kids| == |tr.keys| + 1
    ensures 0 < h ==> KidsLeft(loc, DeleteLoc(t, loc, tr, h, x), ShiftOf(t, tr, x) == Merged, Prepare(t, tr, x).child)
    decreases h
  {
    hide Shape, Fits, Prepare, ShiftOf, PrepareLoc, DeleteLoc, KidsLeft, MovesInner, LastGone;
    if h == 0 {
      LeafLoc(t, loc, tr, x);
    } else {
      Counts(t, tr, h, loc);
      var st, mid := Prepare(t, tr, x), PrepareLoc(t, loc, tr, x);
      PreparedChild(t, loc, tr, h, x, st, mid);
      var c, tc := mid.kids[st.child], st.node.kids[st.child];
      DeleteStep(t, loc, tr, h, x, st, mid, tc);
      DeleteKids(t, c, tc, h - 1, st.hash);
      KidReplaced(loc, mid, st.child, DeleteLoc(t, c, tc, h - 1, st.hash), ShiftOf(t, tr, x) == Merged, st.child);
    }
  }

  lemma LeafLoc(t: nat, loc: Loc, tr: Tree, x: nat)
    requires 2 <= t && Shape(t, tr, 0) && Fits(loc, tr)
    ensures DeleteLoc(t, loc, tr, 0, x) == loc && loc.kids == []
  {
  }

  /** What the descent goes on with. */
  lemma PreparedChild(t: nat, loc: Loc, tr: Tree, h: nat, x: nat, st: Step, mid: Loc)
    requires 2 <= t && 0 < h && Shape(t, tr, h) && 1 <= |tr.keys| && Fits(loc, tr)
    requires |loc.kids| == |tr.kids| == |tr.keys| + 1
    requires st == Prepare(t, tr, x) && mid == PrepareLoc(t, loc, tr, x)
    ensures st.child < |mid.kids| == |st.node.kids| && mid.bno == loc.bno
    ensures var tc := st.node.kids[st.child];
            Shape(t, tc, h - 1) && 1 <= |tc.keys| && Fits(mid.kids[st.child], tc)
    ensures KidsLeft(loc, mid, ShiftOf(t, tr, x) == Merged, st.child)
  {
    PrepareShape(t, tr, h, x);
    PrepareKids(t, loc, tr, h, x);
    FitsPrepare(t, loc, tr, h, x);
    hide Shape, Fits, Prepare, ShiftOf, PrepareLoc, KidsLeft;
    FitsAt(mid, st.node, st.child);
  }

  lemma FitsAt(loc: Loc, tr: Tree, i: nat)
    requires Fits(loc, tr) && i < |tr.kids|
    ensures |loc.kids| == |tr.kids| && Fits(loc.kids[i], tr.kids[i])
  {
  }

  /** Child b of a node handed some of its children on to child a. */
  lemma HandedOver(d: Disk, loc: Loc, i: nat, j: nat, q: nat)
    requires Apart(loc) && BelowOk(d, loc) && i < |loc.kids| && j < |loc.kids| && i != j && q < |loc.kids[j].kids|
    ensures !ParentIs(d, loc.kids[j].kids[q].bno, loc.kids[i].bno)
  {
    KidsApart(loc, i, j);
    assert ParentsOk(d, loc.kids[j]);
  }

  /** The node the descent goes on with and its neighbours, as the preparation leaves them. */
  lemma MergedParents(d: Disk, t: nat, loc: Loc, tr: Tree, h: nat, i: nat)
    requires 2 <= t && 0 < h && Shape(t, tr, h) && Fits(loc, tr) && Apart(loc) && BelowOk(d, loc) && i < |tr.keys|
    ensures |loc.kids| == |tr.keys| + 1
    ensures var m := MergeLoc(loc, i);
            && (forall q | 0 <= q < |m.kids| && q != i :: ParentsOk(d, m.kids[q])) && BelowOk(d, m.kids[i])
            && (h == 1 ==> m.kids[i].kids == [])
            && (2 <= h ==>
                  && 2 <= |loc.kids[i + 1].kids| && |m.kids[i].kids| == |loc.kids[i].kids| + |loc.kids[i + 1].kids|
                  && forall q | |loc.kids[i].kids| <= q < |m.kids[i].kids| ::
                       !ParentIs(d, m.kids[i].kids[q].bno, m.kids[i].bno))
  {
    Kinds(t, tr, h, loc);
    FitsMerge(loc, tr, i);
    hide Shape, Fits, Merge, MergeLoc;
    var m, a, b := MergeLoc(loc, i), loc.kids[i], loc.kids[i + 1];
    OkParts(d, a);
    OkParts(d, b);
    forall q | |a.kids| <= q < |m.kids[i].kids|
      ensures !ParentIs(d, m.kids[i].kids[q].bno, m.kids[i].bno)
    {
      HandedOver(d, loc, i, i + 1, q - |a.kids|);
    }
  }

  lemma PrevParents(d: Disk, t: nat, loc: Loc, tr: Tree, h: nat, i: nat)
    requires 2 <= t && 0 < h && Shape(t, tr, h) && Fits(loc, tr) && Apart(loc) && BelowOk(d, loc) && 1 <= i <= |tr.keys|
    requires 1 <= |tr.kids[i - 1].keys|
    ensures |loc.kids| == |tr.keys| + 1
    ensures var m := StealPrevLoc(loc, i);
            && |m.kids| == |loc.kids| && (forall q | 0 <= q < |m.kids| && q != i :: ParentsOk(d, m.kids[q]))
            && BelowOk(d, m.kids[i])
            && (h == 1 ==> m.kids[i].kids == [])
            && (2 <= h ==> 2 <= |m.kids[i].kids| && !ParentIs(d, m.kids[i].kids[0].bno, m.kids[i].bno))
  {
    Kinds(t, tr, h, loc);
    StealKids(loc, i);
    var m, a, b := StealPrevLoc(loc, i), loc.kids[i - 1], loc.kids[i];
    hide Shape, Fits;
    OkParts(d, a);
    OkParts(d, b);
    if 2 <= h {
      HandedOver(d, loc, i, i - 1, |a.kids| - 1);
      assert m.kids[i - 1] == Loc(a.bno, a.kids[..|a.kids| - 1]);
      OkParts(d, m.kids[i - 1]);
    }
  }

  lemma NextParents(d: Disk, t: nat, loc: Loc, tr: Tree, h: nat, i: nat)
    requires 2 <= t && 0 < h && Shape(t, tr, h) && Fits(loc, tr) && Apart(loc) && BelowOk(d, loc) && i < |tr.keys|
    requires 1 <= |tr.kids[i + 1].keys|
    ensures |loc.kids| == |tr.keys| + 1
    ensures var m := StealNextLoc(loc, i);
            && |m.kids| == |loc.kids| && (forall q | 0 <= q < |m.kids| && q != i :: ParentsOk(d, m.kids[q]))
            && BelowOk(d, m.kids[i])
            && (h == 1 ==> m.kids[i].kids == [])
            && (2 <= h ==>
                  var n := |m.kids[i].kids|;
                  && 1 <= n && !ParentIs(d, m.kids[i].kids[n - 1].bno, m.kids[i].bno)
                  && forall q | 0 <= q < n - 1 :: ParentIs(d, m.kids[i].kids[q].bno, m.kids[i].bno))
  {
    Kinds(t, tr, h, loc);
    StealKids(loc, i);
    var m, a, b := StealNextLoc(loc, i), loc.kids[i], loc.kids[i + 1];
    hide Shape, Fits;
    OkParts(d, a);
    OkParts(d, b);
    if 2 <= h {
      HandedOver(d, loc, i, i + 1, 0);
      assert m.kids[i + 1] == Loc(b.bno, b.kids[1..]);
      OkParts(d, m.kids[i + 1]);
    }
  }

  /** What the preparation leaves: everything in order but the first generation below the child
      the descent goes on with, where the children that were handed over name another node. */
  lemma PrepareParents(d: Disk, t: nat, loc: Loc, tr: Tree, h: nat, x: nat)
    requires 2 <= t && 0 < h && Shape(t, tr, h) && 1 <= |tr.keys| && Fits(loc, tr) && Apart(loc) && BelowOk(d, loc)
    ensures |loc.kids| == |tr.kids| == |tr.keys| + 1
    ensures var st, mid := Prepare(t, tr, x), PrepareLoc(t, loc, tr, x);
            && st.child < |mid.kids| && (forall q | 0 <= q < |mid.kids| && q != st.child :: ParentsOk(d, mid.kids[q]))
            && BelowOk(d, mid.kids[st.child])
            && (h == 1 ==> mid.kids[st.child].kids == [])
            && (2 <= h ==> Handed(d, mid.kids[st.child], ShiftOf(t, tr, x)))
  {
    Counts(t, tr, h, loc);
    PrepareIs(t, tr, x);
    PrepareLocIs(t, loc, tr, x);
    hide Shape, Fits, Merge, StealPrev, StealNext, MergeLoc, StealPrevLoc, StealNextLoc, Prepare, ShiftOf, PrepareLoc,
         ParentsOk, BelowOk, Apart;
    var c := Prepare(t, tr, x).child;
    match ShiftOf(t, tr, x)
    case Stay =>
      StayParents(d, loc, c);
      LeafKid(t, loc, tr, h, c);
    case Merged =>
      FitsMerge(loc, tr, c);
      MergedParents(d, t, loc, tr, h, c);
      if 2 <= h { HandedMany(d, MergeLoc(loc, c).kids[c], |loc.kids[c].kids|); }
    case FromPrev => PrevParents(d, t, loc, tr, h, c);
    case FromNext => NextParents(d, t, loc, tr, h, c);
  }

  lemma LeafKid(t: nat, loc: Loc, tr: Tree, h: nat, c: nat)
    requires 2 <= t && 0 < h && Shape(t, tr, h) && Fits(loc, tr) && c < |loc.kids|
    ensures h == 1 ==> loc.kids[c].kids == []
  {
    Kinds(t, tr, h, loc);
  }

  /** Which children of c name another node. */
  ghost predicate Handed(d: Disk, c: Loc, s: Shift) {
    var n := |c.kids|;
    match s
    case Stay => TopOk(d, c)
    case Merged => 2 <= n && !ParentIs(d, c.kids[n - 1].bno, c.bno) && !ParentIs(d, c.kids[n - 2].bno, c.bno)
    case FromPrev => 2 <= n && !ParentIs(d, c.kids[0].bno, c.bno)
    case FromNext =>
      && 1 <= n && !ParentIs(d, c.kids[n - 1].bno, c.bno)
      && forall q | 0 <= q < n - 1 :: ParentIs(d, c.kids[q].bno, c.bno)
  }

  lemma HandedMany(d: Disk, c: Loc, from: nat)
    requires from + 2 <= |c.kids| && forall q | from <= q < |c.kids| :: !ParentIs(d, c.kids[q].bno, c.bno)
    ensures Handed(d, c, Merged)
  {
  }

  lemma StayParents(d: Disk, loc: Loc, c: nat)
    requires BelowOk(d, loc) && c < |loc.kids|
    ensures (forall q | 0 <= q < |loc.kids| :: ParentsOk(d, loc.kids[q]))
    ensures BelowOk(d, loc.kids[c]) && TopOk(d, loc.kids[c])
  {
    OkParts(d, loc.kids[c]);
  }

  /** Whether the children of c are in order once the deletion below has taken away child k + 1,
      or none. */
  lemma HandedLeft(d: Disk, c: Loc, r: Loc, s: Shift, gone: bool, k: nat)
    requires Handed(d, c, s) && KidsLeft(c, r, gone, k) && (gone ==> k + 1 < |c.kids|)
    ensures TopOk(d, r) <==> match s
              case Stay => true
              case Merged => false
              case FromPrev => false
              case FromNext => gone && k + 2 == |c.kids|
  {
    var n := |c.kids|;
    match s
    case Stay =>
    case Merged =>
      assert !ParentIs(d, r.kids[|r.kids| - 1].bno, r.bno);
    case FromPrev =>
      assert !ParentIs(d, r.kids[0].bno, r.bno);
    case FromNext =>
      if !(gone && k + 2 == n) {
        assert !ParentIs(d, r.kids[|r.kids| - 1].bno, r.bno);
      }
  }

  lemma BelowReplace(d: Disk, mid: Loc, j: nat, sub: Loc)
    requires j < |mid.kids| && forall q | 0 <= q < |mid.kids| && q != j :: ParentsOk(d, mid.kids[q])
    ensures BelowOk(d, mid.(kids := mid.kids[j := sub])) <==> ParentsOk(d, sub)
  {
    var m := mid.(kids := mid.kids[j := sub]);
    assert m.kids[j] == sub;
  }

  /** One step of the definitions. */
  lemma DeleteStep(t: nat, loc: Loc, tr: Tree, h: nat, x: nat, st: Step, mid: Loc, tc: Tree)
    requires 2 <= t && 0 < h && Shape(t, tr, h) && 1 <= |tr.keys| && |loc.kids| == |tr.kids| == |tr.keys| + 1
    requires st == Prepare(t, tr, x) && mid == PrepareLoc(t, loc, tr, x) && st.child < |mid.kids|
    requires st.child < |st.node.kids| && tc == st.node.kids[st.child] && Shape(t, tc, h - 1) && 1 <= |tc.keys|
    ensures DeleteLoc(t, loc, tr, h, x)
            == mid.(kids := mid.kids[st.child := DeleteLoc(t, mid.kids[st.child], tc, h - 1, st.hash)])
    ensures h == 1 ==> !MovesInner(t, tr, h, x)
    ensures 2 <= h ==> |tc.kids| == |tc.keys| + 1
    ensures 2 <= h ==>
              var below := MovesInner(t, tc, h - 1, st.hash);
              MovesInner(t, tr, h, x) == match ShiftOf(t, tr, x)
                                         case Merged => true
                                         case FromPrev => true
                                         case FromNext => !LastGone(t, tc, st.hash) || below
                                         case Stay => below
  {
    hide Prepare, PrepareLoc, ShiftOf, LastGone;
  }

  /** A deletion leaves the parent fields below the children of the node right exactly unless it
      moves a child of an inner node for good. */
  lemma {:induction false} DeleteParents(d: Disk, t: nat, loc: Loc, tr: Tree, h: nat, x: nat)
    requires 2 <= t && Shape(t, tr, h) && (0 < h ==> 1 <= |tr.keys|) && Fits(loc, tr) && Apart(loc) && BelowOk(d, loc)
    ensures BelowOk(d, DeleteLoc(t, loc, tr, h, x)) <==> !MovesInner(t, tr, h, x)
    decreases h
  {
    hide Shape, Fits, Prepare, ShiftOf, PrepareLoc, ParentsOk, Apart, BelowOk, TopOk, Handed, KidsLeft, LastGone,
         DeleteLoc, MovesInner;
    DeleteKids(t, loc, tr, h, x);
    if h == 0 {
      NoKids(d, t, loc, tr, x);
    } else {
      PrepareParents(d, t, loc, tr, h, x);
      PrepareShape(t, tr, h, x);
      FitsPrepare(t, loc, tr, h, x);
      PrepareApart(t, loc, tr, x);
      var st, mid := Prepare(t, tr, x), PrepareLoc(t, loc, tr, x);
      FootAt(mid, st.child);
      var c, tc := mid.kids[st.child], st.node.kids[st.child];
      DeleteStep(t, loc, tr, h, x, st, mid, tc);
      FitsAt(mid, st.node, st.child);
      DeleteKids(t, c, tc, h - 1, st.hash);
      var sub := DeleteLoc(t, c, tc, h - 1, st.hash);
      BelowReplace(d, mid, st.child, sub);
      OkParts(d, sub);
      if 2 <= h {
        PrepareLocIs(t, c, tc, st.hash);
        HandedLeft(d, c, sub, ShiftOf(t, tr, x), ShiftOf(t, tc, st.hash) == Merged, Prepare(t, tc, st.hash).child);
        LastIs(t, tc, st.hash);
        DeleteParents(d, t, c, tc, h - 1, st.hash);
      } else {
        LeafOk(d, sub);
      }
    }
  }

  lemma PrepareApart(t: nat, loc: Loc, tr: Tree, x: nat)
    requires 1 <= t && 1 <= |tr.keys| && |loc.kids| == |tr.kids| == |tr.keys| + 1 && Apart(loc)
    ensures Apart(PrepareLoc(t, loc, tr, x)) && Foot(PrepareLoc(t, loc, tr, x)) <= Foot(loc)
  {
    hide Apart, Foot, ShiftOf, Prepare, MergeLoc, StealPrevLoc, StealNextLoc;
    PrepareLocIs(t, loc, tr, x);
    var c := Prepare(t, tr, x).child;
    match ShiftOf(t, tr, x)
    case Stay =>
    case Merged => MergeApart(loc, c);
    case FromPrev => StealPrevApart(loc, c);
    case FromNext => StealNextApart(loc, c);
  }

  lemma LastIs(t: nat, tr: Tree, x: nat)
    requires 1 <= t && 1 <= |tr.keys| && |tr.kids| == |tr.keys| + 1
    ensures LastGone(t, tr, x) <==> ShiftOf(t, tr, x) == Merged && Prepare(t, tr, x).child + 2 == |tr.kids|
  {
    hide ShiftOf, Prepare;
  }

  lemma LeafOk(d: Disk, loc: Loc)
    requires loc.kids == []
    ensures ParentsOk(d, loc) && BelowOk(d, loc)
  {
  }

  lemma NoKids(d: Disk, t: nat, loc: Loc, tr: Tree, x: nat)
    requires 2 <= t && Shape(t, tr, 0) && loc.kids == []
    ensures BelowOk(d, DeleteLoc(t, loc, tr, 0, x)) && !MovesInner(t, tr, 0, x)
  {
  }

  /** One rearrangement on its own: right afterwards exactly if the children it works on are
      leaves. */
  lemma MergeParentsExact(d: Disk, e: Disk, t: nat, loc: Loc, tr: Tree, h: nat, i: nat)
    requires 2 <= t && 0 < h && Shape(t, tr, h) && Fits(loc, tr) && Apart(loc) && ParentsOk(d, loc) && i < |tr.keys|
    requires KeepsParents(d, e, Foot(loc)) && |loc.kids| == |tr.keys| + 1
    ensures ParentsOk(e, MergeLoc(loc, i)) <==> h == 1
  {
    Counts(t, tr, h, loc);
    hide Shape, Apart, Fits, Foot, FootAll;
    OkParts(d, loc);
    MergedParents(d, t, loc, tr, h, i);
    FitsMerge(loc, tr, i);
    MergeApart(loc, i);
    var r := MergeLoc(loc, i);
    Transfer(d, e, loc, r);
    OneKid(d, r, i);
    if 2 <= h { HandedMany(d, r.kids[i], |loc.kids[i].kids|); }
  }

  lemma StealPrevParentsExact(d: Disk, e: Disk, t: nat, loc: Loc, tr: Tree, h: nat, i: nat)
    requires 2 <= t && 0 < h && Shape(t, tr, h) && Fits(loc, tr) && Apart(loc) && ParentsOk(d, loc)
             && 1 <= i <= |tr.keys|
    requires KeepsParents(d, e, Foot(loc)) && |loc.kids| == |tr.keys| + 1 && 1 <= |tr.kids[i - 1].keys|
    ensures ParentsOk(e, StealPrevLoc(loc, i)) <==> h == 1
  {
    hide Shape, Apart, Fits, Foot, FootAll;
    OkParts(d, loc);
    PrevParents(d, t, loc, tr, h, i);
    StealKids(loc, i);
    LocBnos(loc, i);
    StealPrevApart(loc, i);
    Transfer(d, e, loc, StealPrevLoc(loc, i));
    OneKid(d, StealPrevLoc(loc, i), i);
  }

  lemma StealNextParentsExact(d: Disk, e: Disk, t: nat, loc: Loc, tr: Tree, h: nat, i: nat)
    requires 2 <= t && 0 < h && Shape(t, tr, h) && Fits(loc, tr) && Apart(loc) && ParentsOk(d, loc) && i < |tr.keys|
    requires KeepsParents(d, e, Foot(loc)) && |loc.kids| == |tr.keys| + 1 && 1 <= |tr.kids[i + 1].keys|
    ensures ParentsOk(e, StealNextLoc(loc, i)) <==> h == 1
  {
    hide Shape, Apart, Fits, Foot, FootAll;
    OkParts(d, loc);
    NextParents(d, t, loc, tr, h, i);
    StealKids(loc, i);
    LocBnos(loc, i);
    StealNextApart(loc, i);
    Transfer(d, e, loc, StealNextLoc(loc, i));
    OneKid(d, StealNextLoc(loc, i), i);
  }

  lemma Transfer(d: Disk, e: Disk, loc: Loc, r: Loc)
    requires KeepsParents(d, e, Foot(loc)) && Foot(r) <= Foot(loc)
    ensures ParentsOk(d, r) <==> ParentsOk(e, r)
  {
    FootBelow(r);
    ParentsSame(d, e, r);
  }

  /** Everything but the first generation below child i is in order. */
  lemma OneKid(d: Disk, r: Loc, i: nat)
    requires i < |r.kids| && TopOk(d, r) && BelowOk(d, r.kids[i])
    requires forall q | 0 <= q < |r.kids| && q != i :: ParentsOk(d, r.kids[q])
    ensures ParentsOk(d, r) <==> TopOk(d, r.kids[i])
  {
    OkParts(d, r);
    OkParts(d, r.kids[i]);
  }

  /** A deletion through the root, whether the root stays or gives way to its only child: the
      parent fields are right afterwards exactly unless children of inner nodes were moved. */
  lemma DeleteParentsExact(d: Disk, t: nat, loc: Loc, tr: Tree, h: nat, x: nat)
    requires 2 <= t && Shape(t, tr, h) && (0 < h ==> 1 <= |tr.keys|) && Fits(loc, tr) && Apart(loc) && ParentsOk(d, loc)
    ensures var r := DeleteLoc(t, loc, tr, h, x);
            && (ParentsOk(d, r) <==> !MovesInner(t, tr, h, x))
            && (|r.kids| == 1 ==> (ParentsOk(d, r.kids[0]) <==> !MovesInner(t, tr, h, x)))
  {
    hide Shape, Fits, DeleteLoc, MovesInner, Prepare, ShiftOf, Apart;
    var r := DeleteLoc(t, loc, tr, h, x);
    OkParts(d, loc);
    OkParts(d, r);
    DeleteKids(t, loc, tr, h, x);
    DeleteParents(d, t, loc, tr, h, x);
  }

  /** The layout after filling child i. */
  function FillLoc(t: nat, loc: Loc, tr: Tree, i: nat): Loc
    requires 1 <= |tr.keys| && |loc.kids| == |tr.kids| == |tr.keys| + 1 && i < |tr.kids|
  {
    if i > 0 && |tr.kids[i - 1].keys| >= t then StealPrevLoc(loc, i)
    else if i < |tr.keys| && |tr.kids[i + 1].keys| >= t then StealNextLoc(loc, i)
    else MergeLoc(loc, if i < |tr.keys| then i else i - 1)
  }

  /** A search that goes on below prepares by filling, if at all. */
  lemma PrepareFills(t: nat, loc: Loc, tr: Tree, x: nat)
    requires 1 <= t && 1 <= |tr.keys| && |loc.kids| == |tr.kids| == |tr.keys| + 1
    requires var i := FindKey(tr.keys, x); i < |tr.keys| ==> tr.keys[i].hash != x
    ensures var i := FindKey(tr.keys, x);
            PrepareLoc(t, loc, tr, x) == if |tr.kids[i].keys| < t then FillLoc(t, loc, tr, i) else loc
  {
    hide MergeLoc, StealPrevLoc, StealNextLoc, Merge, StealPrev, StealNext;
  }

  /** A key that is found is overwritten, or its neighbours are merged. */
  lemma PrepareTakes(t: nat, loc: Loc, tr: Tree, i: nat)
    requires 1 <= t && i < |tr.keys| && |loc.kids| == |tr.kids| == |tr.keys| + 1
             && i == FindKey(tr.keys, tr.keys[i].hash)
    ensures PrepareLoc(t, loc, tr, tr.keys[i].hash)
            == if |tr.kids[i].keys| >= t || |tr.kids[i + 1].keys| >= t then loc else MergeLoc(loc, i)
  {
    hide MergeLoc, StealPrevLoc, StealNextLoc, Merge, StealPrev, StealNext, MaxEntry, MinEntry;
  }
}
