/** Deletion from the B-tree value: predecessor, successor, steal, merge, fill, and the
    descent that keeps every node it enters at t keys or more. */
module BTreeDelete {
  import opened Entries
  import opened BTree

  /** The rightmost path: node = children[nr_of_keys] until a leaf. */
  function MaxEntry(tr: Tree): Entry {
    if tr.kids != [] then MaxEntry(tr.kids[|tr.kids| - 1])
    else if tr.keys != [] then tr.keys[|tr.keys| - 1] else ZERO_ENTRY
  }

  /** The leftmost path. */
  function MinEntry(tr: Tree): Entry {
    if tr.kids != [] then MinEntry(tr.kids[0])
    else if tr.keys != [] then tr.keys[0] else ZERO_ENTRY
  }

  /** The predecessor path ends at the last entry of the subtree. */
  lemma {:induction false} MaxIsLast(t: nat, tr: Tree, h: nat)
    requires 2 <= t && Shape(t, tr, h) && 1 <= |tr.keys|
    ensures Flat(tr) != [] && Flat(tr)[|Flat(tr)| - 1] == MaxEntry(tr)
    decreases h
  {
    if h > 0 {
      var n := |tr.keys|;
      MaxIsLast(t, tr.kids[n], h - 1);
      FlatAt(tr, n);
      assert After(tr, n) == [];
    }
  }

  /** The successor path ends at the first entry of the subtree. */
  lemma {:induction false} MinIsFirst(t: nat, tr: Tree, h: nat)
    requires 2 <= t && Shape(t, tr, h) && 1 <= |tr.keys|
    ensures Flat(tr) != [] && Flat(tr)[0] == MinEntry(tr)
    decreases h
  {
    if h > 0 {
      MinIsFirst(t, tr.kids[0], h - 1);
      FlatAt(tr, 0);
      assert Before(tr, 0) == [];
    }
  }

  // ---------------------------------------------------------- rearrangements

  /** Children i and i+1 become one node around key i. */
  function Merge(tr: Tree, i: nat): Tree
    requires i < |tr.keys| && i + 1 < |tr.kids|
  {
    WithMerged(tr, i, Glue(tr.kids[i], tr.keys[i], tr.kids[i + 1]))
  }

  /** Child i takes key i-1 in front, which is replaced by the last key of child i-1. */
  function StealPrev(tr: Tree, i: nat): Tree
    requires 1 <= i <= |tr.keys| && i < |tr.kids| && 1 <= |tr.kids[i - 1].keys|
  {
    var a, b := tr.kids[i - 1], tr.kids[i];
    var n := |a.keys| - 1;
    WithPair(tr, i - 1,
             Node(a.keys[..n], if |a.kids| <= n then [] else a.kids[..n + 1]),
             a.keys[n],
             Node([tr.keys[i - 1]] + b.keys, (if |a.kids| <= n then [] else a.kids[n + 1..]) + b.kids))
  }

  /** Child i takes key i at its end, which is replaced by the first key of child i+1. */
  function StealNext(tr: Tree, i: nat): Tree
    requires i < |tr.keys| && i + 1 < |tr.kids| && 1 <= |tr.kids[i + 1].keys|
  {
    var a, b := tr.kids[i], tr.kids[i + 1];
    WithPair(tr, i,
             Node(a.keys + [tr.keys[i]], a.kids + if b.kids == [] then [] else b.kids[..1]),
             b.keys[0],
             Node(b.keys[1..], if b.kids == [] then [] else b.kids[1..]))
  }

  lemma MergeFlat(t: nat, tr: Tree, h: nat, i: nat)
    requires 0 < h && Shape(t, tr, h) && i < |tr.keys|
    ensures Flat(Merge(tr, i)) == Flat(tr)
  {
    var a, b := tr.kids[i], tr.kids[i + 1];
    FlatPair(tr, i);
    FlatGlue(a, tr.keys[i], b);
    FlatWithMerged(tr, i, Glue(a, tr.keys[i], b));
  }

  lemma MergeShape(t: nat, tr: Tree, h: nat, i: nat)
    requires 2 <= t && 0 < h && Shape(t, tr, h) && i < |tr.keys|
    requires |tr.kids[i].keys| == |tr.kids[i + 1].keys| == t - 1
    ensures Shape(t, Merge(tr, i), h) && |Merge(tr, i).keys| == |tr.keys| - 1
    ensures |Merge(tr, i).kids[i].keys| == 2 * t - 1
  {
    var m := Merge(tr, i);
    GlueShape(t, tr.kids[i], tr.keys[i], tr.kids[i + 1], h - 1);
    forall j | 0 <= j < |m.kids|
      ensures Shape(t, m.kids[j], h - 1) && t - 1 <= |m.kids[j].keys|
    {
      if j < i { assert m.kids[j] == tr.kids[j]; } else if j > i { assert m.kids[j] == tr.kids[j + 1]; }
    }
  }

  lemma GlueShape(t: nat, a: Tree, x: Entry, b: Tree, h: nat)
    requires 2 <= t && Shape(t, a, h) && Shape(t, b, h) && |a.keys| + |b.keys| <= 2 * t - 2
    ensures Shape(t, Glue(a, x, b), h)
  {
    var g := Glue(a, x, b);
    if h > 0 {
      forall j | 0 <= j < |g.kids|
        ensures Shape(t, g.kids[j], h - 1) && t - 1 <= |g.kids[j].keys|
      {
        if j < |a.kids| { assert g.kids[j] == a.kids[j]; } else { assert g.kids[j] == b.kids[j - |a.kids|]; }
      }
    }
  }

  lemma MergeSize(tr: Tree, i: nat)
    requires |tr.kids| == |tr.keys| + 1 && i < |tr.keys|
    ensures Size(Merge(tr, i)) == Size(tr) - 1
  {
    var a, b := tr.kids[i], tr.kids[i + 1];
    SizeGlue(a, tr.keys[i], b);
    assert tr.kids == tr.kids[..i] + [a, b] + tr.kids[i + 2..];
    SizeTwo(tr.kids[..i], a, b, tr.kids[i + 2..]);
    SizeOne(tr.kids[..i], Glue(a, tr.keys[i], b), tr.kids[i + 2..]);
  }

  /** The last key of a node and the child right of it, cut off. */
  lemma CutLast(t: nat, a: Tree, h: nat)
    requires Shape(t, a, h) && 1 <= |a.keys|
    ensures var n := |a.keys| - 1;
            var rest := Node(a.keys[..n], if |a.kids| <= n then [] else a.kids[..n + 1]);
            var cut := Node([], if |a.kids| <= n then [] else a.kids[n + 1..]);
            && Glue(rest, a.keys[n], cut) == a && SameKind(rest, cut)
            && Shape(t, rest, h) && (h > 0 ==> cut.kids == [a.kids[n + 1]])
  {
  }

  /** The first key of a node and the child left of it, cut off. */
  lemma CutFirst(t: nat, b: Tree, h: nat)
    requires Shape(t, b, h) && 1 <= |b.keys|
    ensures var cut := Node([], if b.kids == [] then [] else b.kids[..1]);
            var rest := Node(b.keys[1..], if b.kids == [] then [] else b.kids[1..]);
            && Glue(cut, b.keys[0], rest) == b && SameKind(cut, rest)
            && Shape(t, rest, h) && (h > 0 ==> cut.kids == [b.kids[0]])
  {
  }

  /** The last key of a moves up, x moves down in front of b. */
  lemma MoveRight(t: nat, a: Tree, x: Entry, b: Tree, h: nat)
    requires Shape(t, a, h) && Shape(t, b, h) && 1 <= |a.keys|
    ensures var n := |a.keys| - 1;
            var rest := Node(a.keys[..n], if |a.kids| <= n then [] else a.kids[..n + 1]);
            var taker := Node([x] + b.keys, (if |a.kids| <= n then [] else a.kids[n + 1..]) + b.kids);
            Flat(rest) + [a.keys[n]] + Flat(taker) == Flat(a) + [x] + Flat(b)
  {
    hide Flat;
    var n := |a.keys| - 1;
    var rest := Node(a.keys[..n], if |a.kids| <= n then [] else a.kids[..n + 1]);
    var cut := Node([], if |a.kids| <= n then [] else a.kids[n + 1..]);
    CutLast(t, a, h);
    FlatGlue(rest, a.keys[n], cut);
    FlatGlue(cut, x, b);
    assert Glue(cut, x, b) == Node([x] + b.keys, cut.kids + b.kids);
    assert (Flat(rest) + [a.keys[n]] + Flat(cut)) + [x] + Flat(b)
        == Flat(rest) + [a.keys[n]] + (Flat(cut) + [x] + Flat(b));
  }

  /** x moves down behind a, the first key of b moves up. */
  lemma MoveLeft(t: nat, a: Tree, x: Entry, b: Tree, h: nat)
    requires Shape(t, a, h) && Shape(t, b, h) && 1 <= |b.keys|
    ensures var taker := Node(a.keys + [x], a.kids + if b.kids == [] then [] else b.kids[..1]);
            var rest := Node(b.keys[1..], if b.kids == [] then [] else b.kids[1..]);
            Flat(taker) + [b.keys[0]] + Flat(rest) == Flat(a) + [x] + Flat(b)
  {
    hide Flat;
    var rest := Node(b.keys[1..], if b.kids == [] then [] else b.kids[1..]);
    var cut := Node([], if b.kids == [] then [] else b.kids[..1]);
    CutFirst(t, b, h);
    FlatGlue(cut, b.keys[0], rest);
    FlatGlue(a, x, cut);
    assert Glue(a, x, cut) == Node(a.keys + [x], a.kids + cut.kids);
    assert Flat(a) + [x] + (Flat(cut) + [b.keys[0]] + Flat(rest))
        == (Flat(a) + [x] + Flat(cut)) + [b.keys[0]] + Flat(rest);
  }

  lemma StealPrevFlat(t: nat, tr: Tree, h: nat, i: nat)
    requires 0 < h && Shape(t, tr, h) && 1 <= i < |tr.kids| && 1 <= |tr.kids[i - 1].keys|
    ensures Flat(StealPrev(tr, i)) == Flat(tr)
  {
    hide Flat;
    var s := StealPrev(tr, i);
    MoveRight(t, tr.kids[i - 1], tr.keys[i - 1], tr.kids[i], h - 1);
    FlatPair(tr, i - 1);
    FlatWithPair(tr, i - 1, s.kids[i - 1], s.keys[i - 1], s.kids[i]);
  }

  lemma StealNextFlat(t: nat, tr: Tree, h: nat, i: nat)
    requires 0 < h && Shape(t, tr, h) && i < |tr.keys| && 1 <= |tr.kids[i + 1].keys|
    ensures Flat(StealNext(tr, i)) == Flat(tr)
  {
    hide Flat;
    var s := StealNext(tr, i);
    MoveLeft(t, tr.kids[i], tr.keys[i], tr.kids[i + 1], h - 1);
    FlatPair(tr, i);
    FlatWithPair(tr, i, s.kids[i], s.keys[i], s.kids[i + 1]);
  }

  lemma StealPrevShape(t: nat, tr: Tree, h: nat, i: nat)
    requires 2 <= t && 0 < h && Shape(t, tr, h) && 1 <= i < |tr.kids|
    requires t <= |tr.kids[i - 1].keys| && |tr.kids[i].keys| < t
    ensures Shape(t, StealPrev(tr, i), h) && |StealPrev(tr, i).kids[i].keys| == |tr.kids[i].keys| + 1
  {
    var s, a, b := StealPrev(tr, i), tr.kids[i - 1], tr.kids[i];
    CutLast(t, a, h - 1);
    GlueShape2(t, a, tr.keys[i - 1], b, h - 1);
  }

  /** The taker of a steal from the left has the right shape. */
  lemma GlueShape2(t: nat, a: Tree, x: Entry, b: Tree, h: nat)
    requires 2 <= t && Shape(t, a, h) && Shape(t, b, h) && 1 <= |a.keys| && |b.keys| < t
    ensures var n := |a.keys| - 1;
            Shape(t, Node([x] + b.keys, (if |a.kids| <= n then [] else a.kids[n + 1..]) + b.kids), h)
  {
  }

  lemma StealNextShape(t: nat, tr: Tree, h: nat, i: nat)
    requires 2 <= t && 0 < h && Shape(t, tr, h) && i < |tr.keys|
    requires t <= |tr.kids[i + 1].keys| && |tr.kids[i].keys| < t
    ensures Shape(t, StealNext(tr, i), h) && |StealNext(tr, i).kids[i].keys| == |tr.kids[i].keys| + 1
  {
    CutFirst(t, tr.kids[i + 1], h - 1);
  }

  lemma StealPrevSize(t: nat, tr: Tree, h: nat, i: nat)
    requires 0 < h && Shape(t, tr, h) && 1 <= i < |tr.kids| && 1 <= |tr.kids[i - 1].keys|
    ensures Size(StealPrev(tr, i)) == Size(tr)
  {
    var a, b := tr.kids[i - 1], tr.kids[i];
    var n := |a.keys| - 1;
    var s := StealPrev(tr, i);
    var cut := if |a.kids| <= n then [] else a.kids[n + 1..];
    SizeAppend(cut, b.kids);
    SizeAppend(s.kids[i - 1].kids, cut);
    assert a.kids == s.kids[i - 1].kids + cut;
    PairSize(tr, i - 1, s);
  }

  lemma StealNextSize(t: nat, tr: Tree, h: nat, i: nat)
    requires 0 < h && Shape(t, tr, h) && i < |tr.keys| && 1 <= |tr.kids[i + 1].keys|
    ensures Size(StealNext(tr, i)) == Size(tr)
  {
    var a, b := tr.kids[i], tr.kids[i + 1];
    var s := StealNext(tr, i);
    var cut := if b.kids == [] then [] else b.kids[..1];
    SizeAppend(a.kids, cut);
    SizeAppend(cut, s.kids[i + 1].kids);
    assert b.kids == cut + s.kids[i + 1].kids;
    PairSize(tr, i, s);
  }

  /** Two trees that differ in two neighbouring children only. */
  lemma PairSize(tr: Tree, i: nat, s: Tree)
    requires i + 1 < |tr.kids| == |s.kids| && s.kids[..i] == tr.kids[..i] && s.kids[i + 2..] == tr.kids[i + 2..]
    requires Size(s.kids[i]) + Size(s.kids[i + 1]) == Size(tr.kids[i]) + Size(tr.kids[i + 1])
    ensures Size(s) == Size(tr)
  {
    hide SizeAll;
    assert tr.kids == tr.kids[..i] + [tr.kids[i], tr.kids[i + 1]] + tr.kids[i + 2..];
    assert s.kids == s.kids[..i] + [s.kids[i], s.kids[i + 1]] + s.kids[i + 2..];
    SizeTwo(tr.kids[..i], tr.kids[i], tr.kids[i + 1], tr.kids[i + 2..]);
    SizeTwo(s.kids[..i], s.kids[i], s.kids[i + 1], s.kids[i + 2..]);
  }

  // ---------------------------------------------------------------- descent

  /** Child i has fewer than t keys: take one from a neighbour or merge with one. The
      second component is where the child is afterwards. */
  function Fill(t: nat, tr: Tree, i: nat): (Tree, nat)
    requires 1 <= t && 1 <= |tr.keys| && |tr.kids| == |tr.keys| + 1 && i < |tr.kids|
  {
    if i > 0 && |tr.kids[i - 1].keys| >= t then (StealPrev(tr, i), i)
    else if i < |tr.keys| && |tr.kids[i + 1].keys| >= t then (StealNext(tr, i), i)
    else if i < |tr.keys| then (Merge(tr, i), i)
    else (Merge(tr, i - 1), i - 1)
  }

  datatype Step = Step(node: Tree, child: nat, hash: nat)

  /** One level of delete at an internal node: the rearranged node, the child to go on
      with, and the hash to delete there. */
  function Prepare(t: nat, tr: Tree, x: nat): Step
    requires 1 <= t && 1 <= |tr.keys| && |tr.kids| == |tr.keys| + 1
  {
    var i := FindKey(tr.keys, x);
    if i < |tr.keys| && tr.keys[i].hash == x then
      if |tr.kids[i].keys| >= t then
        var p := MaxEntry(tr.kids[i]);
        Step(Node(tr.keys[i := p], tr.kids), i, p.hash)
      else if |tr.kids[i + 1].keys| >= t then
        var s := MinEntry(tr.kids[i + 1]);
        Step(Node(tr.keys[i := s], tr.kids), i + 1, s.hash)
      else
        Step(Merge(tr, i), i, x)
    else if |tr.kids[i].keys| < t then
      var (s, j) := Fill(t, tr, i);
      Step(s, j, x)
    else
      Step(tr, i, x)
  }

  /** Every node the descent enters holds at least t keys. */
  lemma PrepareShape(t: nat, tr: Tree, h: nat, x: nat)
    requires 2 <= t && 0 < h && Shape(t, tr, h) && 1 <= |tr.keys|
    ensures var st := Prepare(t, tr, x);
            && Shape(t, st.node, h) && |tr.keys| - 1 <= |st.node.keys| <= |tr.keys|
            && st.child < |st.node.kids| && Shape(t, st.node.kids[st.child], h - 1)
            && t <= |st.node.kids[st.child].keys|
  {
    var i := FindKey(tr.keys, x);
    if i < |tr.keys| && tr.keys[i].hash == x {
      if |tr.kids[i].keys| < t && |tr.kids[i + 1].keys| < t {
        MergeShape(t, tr, h, i);
      }
    } else if |tr.kids[i].keys| < t {
      if i > 0 && |tr.kids[i - 1].keys| >= t {
        StealPrevShape(t, tr, h, i);
      } else if i < |tr.keys| && |tr.kids[i + 1].keys| >= t {
        StealNextShape(t, tr, h, i);
      } else {
        MergeShape(t, tr, h, if i < |tr.keys| then i else i - 1);
      }
    }
  }

  /** delete, at a node with at least one key. */
  ghost function Delete(t: nat, tr: Tree, h: nat, x: nat): (r: Tree)
    requires 2 <= t && Shape(t, tr, h) && (0 < h ==> 1 <= |tr.keys|)
    ensures Shape(t, r, h) && |tr.keys| - 1 <= |r.keys| <= |tr.keys|
    decreases h
  {
    if h == 0 then
      var i := FindKey(tr.keys, x);
      if i < |tr.keys| && tr.keys[i].hash == x then Node(tr.keys[..i] + tr.keys[i + 1..], []) else tr
    else
      PrepareShape(t, tr, h, x);
      var st := Prepare(t, tr, x);
      Node(st.node.keys, st.node.kids[st.child := Delete(t, st.node.kids[st.child], h - 1, st.hash)])
  }

  /** How many blocks are given back: one for every merge on the way down. */
  ghost function Merges(t: nat, tr: Tree, h: nat, x: nat): (n: nat)
    requires 2 <= t && Shape(t, tr, h) && (0 < h ==> 1 <= |tr.keys|)
    ensures n <= h
    decreases h
  {
    if h == 0 then 0
    else
      PrepareShape(t, tr, h, x);
      var st := Prepare(t, tr, x);
      |tr.keys| - |st.node.keys| + Merges(t, st.node.kids[st.child], h - 1, st.hash)
  }

  lemma PrepareSize(t: nat, tr: Tree, h: nat, x: nat)
    requires 2 <= t && 0 < h && Shape(t, tr, h) && 1 <= |tr.keys|
    ensures var st := Prepare(t, tr, x); Size(st.node) == Size(tr) - (|tr.keys| - |st.node.keys|)
  {
    var i := FindKey(tr.keys, x);
    if i < |tr.keys| && tr.keys[i].hash == x {
      if |tr.kids[i].keys| < t && |tr.kids[i + 1].keys| < t {
        MergeSize(tr, i);
      }
    } else if |tr.kids[i].keys| < t {
      if i > 0 && |tr.kids[i - 1].keys| >= t {
        StealPrevSize(t, tr, h, i);
      } else if i < |tr.keys| && |tr.kids[i + 1].keys| >= t {
        StealNextSize(t, tr, h, i);
      } else {
        MergeSize(tr, if i < |tr.keys| then i else i - 1);
      }
    }
  }

  /** Exactly one node disappears per merge. */
  lemma {:induction false} DeleteSize(t: nat, tr: Tree, h: nat, x: nat)
    requires 2 <= t && Shape(t, tr, h) && (0 < h ==> 1 <= |tr.keys|)
    ensures Size(Delete(t, tr, h, x)) == Size(tr) - Merges(t, tr, h, x)
    decreases h
  {
    hide Size, Prepare;
    if h == 0 {
      LeafSize(tr);
      LeafSize(Delete(t, tr, h, x));
    } else {
      var st := Prepare(t, tr, x);
      PrepareShape(t, tr, h, x);
      PrepareSize(t, tr, h, x);
      DeleteSize(t, st.node.kids[st.child], h - 1, st.hash);
      SizeReplace(st.node, st.child, Delete(t, st.node.kids[st.child], h - 1, st.hash));
    }
  }

  // ------------------------------------------------------------ contents

  /** Deleting below the child a hash belongs to deletes it from the whole sequence. */
  lemma RemoveBelow(tr: Tree, i: nat, x: nat, c: Tree)
    requires Belongs(tr, i, x) && Sorted(Flat(tr))
    requires Flat(c) == Remove(Flat(tr.kids[i]), x)
    ensures Flat(Node(tr.keys, tr.kids[i := c])) == Remove(Flat(tr), x)
  {
    SearchWindow(tr, i, x);
    FlatAt(tr, i);
    FlatReplace(tr, i, c);
    RemoveMiddle(Before(tr, i), Flat(tr.kids[i]), After(tr, i), x);
  }

  lemma RemoveEnds(s: seq<Entry>)
    requires Sorted(s) && s != []
    ensures Remove(s, s[0].hash) == s[1..]
    ensures Remove(s, s[|s| - 1].hash) == s[..|s| - 1]
  {
    hide Remove;
    var n := |s| - 1;
    assert s == [] + [s[0]] + s[1..] && s == s[..n] + [s[n]] + [];
    RemoveBetween([], s[0], s[1..]);
    RemoveBetween(s[..n], s[n], []);
    assert [] + s[1..] == s[1..] && s[..n] + [] == s[..n];
  }

  /** Key i and the child on one side of it, in the middle of the sequence. */
  lemma RemoveKey(tr: Tree, i: nat)
    requires |tr.kids| == |tr.keys| + 1 && i < |tr.keys| && Sorted(Flat(tr))
    ensures Remove(Flat(tr), tr.keys[i].hash)
         == (Before(tr, i) + Flat(tr.kids[i])) + (Flat(tr.kids[i + 1]) + After(tr, i + 1))
    ensures Sorted(Flat(tr.kids[i])) && Sorted(Flat(tr.kids[i + 1]))
  {
    hide Flat, Sorted, Remove, Before, After;
    var l, r := Before(tr, i) + Flat(tr.kids[i]), Flat(tr.kids[i + 1]) + After(tr, i + 1);
    KeyWindow(tr, i);
    RemoveBetween(l, tr.keys[i], r);
    FlatAt(tr, i);
    SortedSplit(Before(tr, i), Flat(tr.kids[i]), After(tr, i));
    FlatAt(tr, i + 1);
    SortedSplit(Before(tr, i + 1), Flat(tr.kids[i + 1]), After(tr, i + 1));
  }

  /** A key overwritten by its predecessor, which is then deleted below it. */
  lemma ReplaceByPred(t: nat, tr: Tree, h: nat, i: nat, c: Tree)
    requires 2 <= t && 0 < h && Shape(t, tr, h) && i < |tr.keys| && Sorted(Flat(tr))
    requires Flat(c) == Remove(Flat(tr.kids[i]), MaxEntry(tr.kids[i]).hash)
    ensures Flat(Node(tr.keys[i := MaxEntry(tr.kids[i])], tr.kids[i := c])) == Remove(Flat(tr), tr.keys[i].hash)
  {
    hide Flat, Shape, Sorted, MaxEntry, Remove;
    KidShape(t, tr, h);
    var p := MaxEntry(tr.kids[i]);
    RemoveKey(tr, i);
    MaxIsLast(t, tr.kids[i], h - 1);
    RemoveEnds(Flat(tr.kids[i]));
    assert Flat(c) + [p] == Flat(tr.kids[i]);
    FlatWithPair(tr, i, c, p, tr.kids[i + 1]);
    assert WithPair(tr, i, c, p, tr.kids[i + 1]) == Node(tr.keys[i := p], tr.kids[i := c]) by {
      assert tr.kids[i := c][i + 1 := tr.kids[i + 1]] == tr.kids[i := c];
    }
  }

  /** A key overwritten by its successor, which is then deleted below it. */
  lemma ReplaceBySucc(t: nat, tr: Tree, h: nat, i: nat, c: Tree)
    requires 2 <= t && 0 < h && Shape(t, tr, h) && i < |tr.keys| && Sorted(Flat(tr))
    requires Flat(c) == Remove(Flat(tr.kids[i + 1]), MinEntry(tr.kids[i + 1]).hash)
    ensures Flat(Node(tr.keys[i := MinEntry(tr.kids[i + 1])], tr.kids[i + 1 := c])) == Remove(Flat(tr), tr.keys[i].hash)
  {
    hide Flat, Shape, Sorted, MinEntry, Remove;
    KidShape(t, tr, h);
    var s := MinEntry(tr.kids[i + 1]);
    RemoveKey(tr, i);
    MinIsFirst(t, tr.kids[i + 1], h - 1);
    RemoveEnds(Flat(tr.kids[i + 1]));
    assert [s] + Flat(c) == Flat(tr.kids[i + 1]);
    FlatWithPair(tr, i, tr.kids[i], s, c);
    assert WithPair(tr, i, tr.kids[i], s, c) == Node(tr.keys[i := s], tr.kids[i + 1 := c]) by {
      assert tr.kids[i := tr.kids[i]] == tr.kids;
    }
  }

  lemma KidShape(t: nat, tr: Tree, h: nat)
    requires 2 <= t && 0 < h && Shape(t, tr, h)
    ensures |tr.kids| == |tr.keys| + 1
    ensures forall i | 0 <= i < |tr.kids| :: Shape(t, tr.kids[i], h - 1) && 1 <= |tr.kids[i].keys|
  {
  }

  /** Filling a child moves entries between siblings only, and the hash still belongs
      to the child. */
  lemma FillFlat(t: nat, tr: Tree, h: nat, i: nat, x: nat)
    requires 2 <= t && 0 < h && Shape(t, tr, h) && 1 <= |tr.keys| && Belongs(tr, i, x) && Sorted(Flat(tr))
    ensures var (s, j) := Fill(t, tr, i); Flat(s) == Flat(tr) && Belongs(s, j, x)
  {
    hide Flat;
    if i > 0 && |tr.kids[i - 1].keys| >= t {
      var s := StealPrev(tr, i);
      StealPrevFlat(t, tr, h, i);
      KeyOrder(t, tr, h, i - 1, i - 1);
      assert s.keys[i - 1].hash < x;
      assert i < |tr.keys| ==> s.keys[i] == tr.keys[i];
    } else if i < |tr.keys| && |tr.kids[i + 1].keys| >= t {
      var s := StealNext(tr, i);
      StealNextFlat(t, tr, h, i);
      KeyOrder(t, tr, h, i + 1, i);
      assert s.keys[i].hash > x;
      assert i > 0 ==> s.keys[i - 1] == tr.keys[i - 1];
    } else if i < |tr.keys| {
      var s := Merge(tr, i);
      MergeFlat(t, tr, h, i);
      KeysSorted(tr);
      assert i < |s.keys| ==> s.keys[i] == tr.keys[i + 1];
    } else {
      var s := Merge(tr, i - 1);
      MergeFlat(t, tr, h, i - 1);
      KeysSorted(tr);
      assert i > 1 ==> s.keys[i - 2] == tr.keys[i - 2];
    }
  }

  /** The keys of a node are in order. */
  lemma KeysSorted(tr: Tree)
    requires |tr.kids| == |tr.keys| + 1 && Sorted(Flat(tr))
    ensures forall i | 0 < i < |tr.keys| :: tr.keys[i - 1].hash < tr.keys[i].hash
  {
    forall i | 0 < i < |tr.keys|
      ensures tr.keys[i - 1].hash < tr.keys[i].hash
    {
      FlatPair(tr, i - 1);
      AfterStep(tr, i);
      var l, m := Before(tr, i - 1) + Flat(tr.kids[i - 1]), [tr.keys[i - 1]] + Flat(tr.kids[i]);
      assert After(tr, i) == [tr.keys[i]] + Flat(tr.kids[i + 1]) + After(tr, i + 1);
      assert Flat(tr) == l + m + After(tr, i);
      SortedSplit(l, m, After(tr, i));
      assert tr.keys[i - 1] in m && tr.keys[i] in After(tr, i);
    }
  }

  /** Keys of child c lie below key k when c <= k and above it when c > k. */
  lemma KeyOrder(t: nat, tr: Tree, h: nat, c: nat, k: nat)
    requires 0 < h && Shape(t, tr, h) && k < |tr.keys| && (c == k || c == k + 1) && Sorted(Flat(tr))
    ensures forall j | 0 <= j < |tr.kids[c].keys| ::
              if c <= k then tr.kids[c].keys[j].hash < tr.keys[k].hash else tr.keys[k].hash < tr.kids[c].keys[j].hash
  {
    hide Flat, Sorted, Before, After;
    FlatPair(tr, k);
    var l := Before(tr, k);
    var r := Flat(tr.kids[k + 1]) + After(tr, k + 1);
    assert Flat(tr) == (l + Flat(tr.kids[k])) + [tr.keys[k]] + r;
    SortedSplit(l + Flat(tr.kids[k]), [tr.keys[k]], r);
    KeysInFlat(tr.kids[c]);
    assert tr.keys[k] in [tr.keys[k]] + r;
  }

  lemma KeysInFlat(tr: Tree)
    requires tr.kids == [] || |tr.kids| == |tr.keys| + 1
    ensures forall j | 0 <= j < |tr.keys| :: tr.keys[j] in Flat(tr)
  {
    hide Flat;
    if tr.kids == [] {
      LeafFlat(tr);
    } else {
      forall j | 0 <= j < |tr.keys|
        ensures tr.keys[j] in Flat(tr)
      {
        KeyPresent(tr, j);
      }
    }
  }

  lemma FoundMergeBelongs(t: nat, tr: Tree, h: nat, i: nat)
    requires 0 < h && Shape(t, tr, h) && i < |tr.keys| && Sorted(Flat(tr))
    ensures Flat(Merge(tr, i)) == Flat(tr) && Belongs(Merge(tr, i), i, tr.keys[i].hash)
  {
    MergeFlat(t, tr, h, i);
    KeysSorted(tr);
    var s := Merge(tr, i);
    assert i > 0 ==> s.keys[i - 1] == tr.keys[i - 1];
    assert i < |s.keys| ==> s.keys[i] == tr.keys[i + 1];
  }

  /** Whatever is done below, one level of the descent turns deletion in the child into
      deletion in the whole subtree. */
  lemma PrepareDelete(t: nat, tr: Tree, h: nat, x: nat, c: Tree)
    requires 2 <= t && 0 < h && Shape(t, tr, h) && 1 <= |tr.keys| && Sorted(Flat(tr))
    requires Prepare(t, tr, x).child < |Prepare(t, tr, x).node.kids|
    requires var st := Prepare(t, tr, x); Flat(c) == Remove(Flat(st.node.kids[st.child]), st.hash)
    ensures var st := Prepare(t, tr, x);
            Flat(Node(st.node.keys, st.node.kids[st.child := c])) == Remove(Flat(tr), x)
  {
    hide Flat, Shape, Sorted, Remove, Fill, Merge, MaxEntry, MinEntry;
    var i := FindKey(tr.keys, x);
    KidShape(t, tr, h);
    if i < |tr.keys| && tr.keys[i].hash == x {
      if |tr.kids[i].keys| >= t {
        ReplaceByPred(t, tr, h, i, c);
      } else if |tr.kids[i + 1].keys| >= t {
        ReplaceBySucc(t, tr, h, i, c);
      } else {
        FoundMergeBelongs(t, tr, h, i);
        RemoveBelow(Merge(tr, i), i, x, c);
      }
    } else {
      assert Belongs(tr, i, x);
      if |tr.kids[i].keys| < t {
        FillFlat(t, tr, h, i, x);
        var (s, j) := Fill(t, tr, i);
        RemoveBelow(s, j, x, c);
      } else {
        RemoveBelow(tr, i, x, c);
      }
    }
  }

  /** The child the descent enters is sorted. */
  lemma PrepareSorted(t: nat, tr: Tree, h: nat, x: nat)
    requires 2 <= t && 0 < h && Shape(t, tr, h) && 1 <= |tr.keys| && Sorted(Flat(tr))
    ensures var st := Prepare(t, tr, x); st.child < |st.node.kids| && Sorted(Flat(st.node.kids[st.child]))
  {
    hide Flat, Shape, Sorted, Fill, Merge, MaxEntry, MinEntry;
    var i := FindKey(tr.keys, x);
    KidShape(t, tr, h);
    if i < |tr.keys| && tr.keys[i].hash == x {
      RemoveKey(tr, i);
      if |tr.kids[i].keys| < t && |tr.kids[i + 1].keys| < t {
        FoundMergeBelongs(t, tr, h, i);
        SearchWindow(Merge(tr, i), i, x);
      }
    } else {
      assert Belongs(tr, i, x);
      if |tr.kids[i].keys| < t {
        FillFlat(t, tr, h, i, x);
        var (s, j) := Fill(t, tr, i);
        SearchWindow(s, j, x);
      } else {
        SearchWindow(tr, i, x);
      }
    }
  }

  lemma LeafRemove(keys: seq<Entry>, x: nat)
    requires Sorted(keys)
    ensures var i := FindKey(keys, x);
            Remove(keys, x) == if i < |keys| && keys[i].hash == x then keys[..i] + keys[i + 1..] else keys
  {
    hide Remove, FindKey;
    var i := FindKey(keys, x);
    if i < |keys| && keys[i].hash == x {
      assert keys == keys[..i] + [keys[i]] + keys[i + 1..];
      RemoveBetween(keys[..i], keys[i], keys[i + 1..]);
    } else {
      RemoveAbsent(keys, x);
    }
  }

  /** Deletion, through every predecessor, successor, steal and merge, removes exactly the
      entry filed under x from the sequence of entries (and nothing if there is none). */
  lemma {:induction false} DeleteFlat(t: nat, tr: Tree, h: nat, x: nat)
    requires 2 <= t && Shape(t, tr, h) && (0 < h ==> 1 <= |tr.keys|) && Sorted(Flat(tr))
    ensures Flat(Delete(t, tr, h, x)) == Remove(Flat(tr), x)
    decreases h
  {
    hide Flat, Sorted, Remove, Prepare;
    if h == 0 {
      LeafFlat(tr);
      LeafRemove(tr.keys, x);
      LeafFlat(Delete(t, tr, h, x));
    } else {
      var st := Prepare(t, tr, x);
      PrepareShape(t, tr, h, x);
      PrepareSorted(t, tr, h, x);
      DeleteFlat(t, st.node.kids[st.child], h - 1, st.hash);
      PrepareDelete(t, tr, h, x, Delete(t, st.node.kids[st.child], h - 1, st.hash));
    }
  }
}
