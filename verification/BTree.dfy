/** The B-tree as a value: what a directory's tree is once block numbers are
    forgotten. The on-disk tree and its in-memory mirror both stand for such a value,
    so the structural case analysis is proved here once. The minimum degree t is a
    parameter (the file system uses 80). */
module BTree {
  import opened Entries

  datatype Tree = Node(keys: seq<Entry>, kids: seq<Tree>)

  // ---------------------------------------------------------------- structure

  /** Every leaf at depth h, one child more than keys, and t-1..2t-1 keys in every
      node but the root. */
  ghost predicate Shape(t: nat, tr: Tree, h: nat)
    decreases h
  {
    && |tr.keys| <= 2 * t - 1
    && if h == 0 then tr.kids == [] else
         && |tr.kids| == |tr.keys| + 1
         && forall i | 0 <= i < |tr.kids| ::
              Shape(t, tr.kids[i], h - 1) && t - 1 <= |tr.kids[i].keys|
  }

  /** Number of nodes. */
  ghost function Size(tr: Tree): nat { 1 + SizeAll(tr.kids) }

  ghost function SizeAll(kids: seq<Tree>): nat {
    if kids == [] then 0 else Size(kids[0]) + SizeAll(kids[1..])
  }

  lemma {:induction false} SizeAppend(a: seq<Tree>, b: seq<Tree>)
    ensures SizeAll(a + b) == SizeAll(a) + SizeAll(b)
  {
    if a == [] {
      assert a + b == b;
    } else {
      assert a + b == [a[0]] + (a[1..] + b);
      SizeAppend(a[1..], b);
    }
  }

  // ------------------------------------------------------------ in-order view

  /** The in-order sequence of entries. */
  function Flat(tr: Tree): seq<Entry>
    decreases tr
  {
    if tr.kids == [] then tr.keys else Flat(tr.kids[0]) + Right(tr.keys, tr.kids[1..])
  }

  /** keys[0], kids[0], keys[1], kids[1], ... */
  function Right(keys: seq<Entry>, kids: seq<Tree>): seq<Entry>
    decreases kids
  {
    if keys == [] || kids == [] then [] else [keys[0]] + Flat(kids[0]) + Right(keys[1..], kids[1..])
  }

  /** kids[0], keys[0], kids[1], keys[1], ... */
  function Left(kids: seq<Tree>, keys: seq<Entry>): seq<Entry>
    decreases kids
  {
    if keys == [] || kids == [] then [] else Flat(kids[0]) + [keys[0]] + Left(kids[1..], keys[1..])
  }

  lemma {:induction false} RightAppend(a: seq<Entry>, ka: seq<Tree>, b: seq<Entry>, kb: seq<Tree>)
    requires |a| == |ka|
    ensures Right(a + b, ka + kb) == Right(a, ka) + Right(b, kb)
  {
    if a == [] {
      assert a + b == b && ka + kb == kb;
    } else {
      assert (a + b)[1..] == a[1..] + b && (ka + kb)[1..] == ka[1..] + kb;
      RightAppend(a[1..], ka[1..], b, kb);
    }
  }

  lemma {:induction false} LeftAppend(ka: seq<Tree>, a: seq<Entry>, kb: seq<Tree>, b: seq<Entry>)
    requires |a| == |ka|
    ensures Left(ka + kb, a + b) == Left(ka, a) + Left(kb, b)
  {
    if a == [] {
      assert a + b == b && ka + kb == kb;
    } else {
      assert (a + b)[1..] == a[1..] + b && (ka + kb)[1..] == ka[1..] + kb;
      LeftAppend(ka[1..], a[1..], kb, b);
    }
  }

  /** What stands before child i, and what stands after it. */
  function Before(tr: Tree, i: nat): seq<Entry>
    requires i <= |tr.keys| && i <= |tr.kids|
  {
    Left(tr.kids[..i], tr.keys[..i])
  }

  function After(tr: Tree, i: nat): seq<Entry>
    requires i <= |tr.keys| && i + 1 <= |tr.kids|
  {
    Right(tr.keys[i..], tr.kids[i + 1..])
  }

  lemma BeforeStep(tr: Tree, i: nat)
    requires i < |tr.keys| && i < |tr.kids|
    ensures Before(tr, i + 1) == Before(tr, i) + Flat(tr.kids[i]) + [tr.keys[i]]
  {
    LeftAppend(tr.kids[..i], tr.keys[..i], [tr.kids[i]], [tr.keys[i]]);
    assert tr.kids[..i + 1] == tr.kids[..i] + [tr.kids[i]] && tr.keys[..i + 1] == tr.keys[..i] + [tr.keys[i]];
    assert Left([tr.kids[i]], [tr.keys[i]]) == Flat(tr.kids[i]) + [tr.keys[i]];
  }

  lemma AfterStep(tr: Tree, i: nat)
    requires i < |tr.keys| && i + 1 < |tr.kids|
    ensures After(tr, i) == [tr.keys[i]] + Flat(tr.kids[i + 1]) + After(tr, i + 1)
  {
    assert tr.keys[i..][1..] == tr.keys[i + 1..] && tr.kids[i + 1..][1..] == tr.kids[i + 2..];
  }

  /** A tree read around its i-th child. */
  lemma {:induction false} FlatAt(tr: Tree, i: nat)
    requires |tr.kids| == |tr.keys| + 1 && i < |tr.kids|
    ensures Flat(tr) == Before(tr, i) + Flat(tr.kids[i]) + After(tr, i)
  {
    if i == 0 {
      assert tr.keys[0..] == tr.keys;
    } else {
      FlatAt(tr, i - 1);
      BeforeStep(tr, i - 1);
      AfterStep(tr, i - 1);
    }
  }

  /** Replacing child i changes only the part of the sequence it stands for. */
  lemma FlatReplace(tr: Tree, i: nat, c: Tree)
    requires |tr.kids| == |tr.keys| + 1 && i < |tr.kids|
    ensures Flat(Node(tr.keys, tr.kids[i := c])) == Before(tr, i) + Flat(c) + After(tr, i)
  {
    var tr' := Node(tr.keys, tr.kids[i := c]);
    FlatAt(tr', i);
    assert tr'.kids[..i] == tr.kids[..i] && tr'.kids[i + 1..] == tr.kids[i + 1..];
  }

  /** Two nodes glued together with an entry between them. */
  function Glue(a: Tree, x: Entry, b: Tree): Tree {
    Node(a.keys + [x] + b.keys, a.kids + b.kids)
  }

  ghost predicate SameKind(a: Tree, b: Tree) {
    || (a.kids == [] && b.kids == [])
    || (|a.kids| == |a.keys| + 1 && |b.kids| == |b.keys| + 1)
  }

  lemma FlatGlue(a: Tree, x: Entry, b: Tree)
    requires SameKind(a, b)
    ensures Flat(Glue(a, x, b)) == Flat(a) + [x] + Flat(b)
  {
    if a.kids != [] {
      var g := Glue(a, x, b);
      assert g.kids[0] == a.kids[0] && g.kids[1..] == a.kids[1..] + b.kids;
      assert g.keys == a.keys + ([x] + b.keys);
      RightAppend(a.keys, a.kids[1..], [x] + b.keys, b.kids);
      assert ([x] + b.keys)[1..] == b.keys;
    }
  }

  /** Two neighbouring children read with the key between them. */
  lemma FlatPair(tr: Tree, i: nat)
    requires |tr.kids| == |tr.keys| + 1 && i + 1 < |tr.kids|
    ensures Flat(tr) == Before(tr, i) + (Flat(tr.kids[i]) + [tr.keys[i]] + Flat(tr.kids[i + 1])) + After(tr, i + 1)
  {
    FlatAt(tr, i);
    AfterStep(tr, i);
  }

  /** Children i, i+1 and the key between them replaced by other ones. */
  function WithPair(tr: Tree, i: nat, a: Tree, x: Entry, b: Tree): Tree
    requires i < |tr.keys| && i + 1 < |tr.kids|
  {
    Node(tr.keys[i := x], tr.kids[i := a][i + 1 := b])
  }

  /** ... or by a single child. */
  function WithMerged(tr: Tree, i: nat, c: Tree): Tree
    requires i < |tr.keys| && i + 1 < |tr.kids|
  {
    Node(tr.keys[..i] + tr.keys[i + 1..], tr.kids[..i] + [c] + tr.kids[i + 2..])
  }

  lemma FlatWithPair(tr: Tree, i: nat, a: Tree, x: Entry, b: Tree)
    requires |tr.kids| == |tr.keys| + 1 && i + 1 < |tr.kids|
    ensures Flat(WithPair(tr, i, a, x, b)) == Before(tr, i) + (Flat(a) + [x] + Flat(b)) + After(tr, i + 1)
  {
    var w := WithPair(tr, i, a, x, b);
    FlatPair(w, i);
    assert w.kids[..i] == tr.kids[..i] && w.keys[..i] == tr.keys[..i];
    assert w.kids[i + 2..] == tr.kids[i + 2..] && w.keys[i + 1..] == tr.keys[i + 1..];
  }

  lemma FlatWithMerged(tr: Tree, i: nat, c: Tree)
    requires |tr.kids| == |tr.keys| + 1 && i + 1 < |tr.kids|
    ensures Flat(WithMerged(tr, i, c)) == Before(tr, i) + Flat(c) + After(tr, i + 1)
  {
    var w := WithMerged(tr, i, c);
    FlatAt(w, i);
    assert w.kids[..i] == tr.kids[..i] && w.keys[..i] == tr.keys[..i];
    assert w.kids[i + 1..] == tr.kids[i + 2..] && w.keys[i..] == tr.keys[i + 1..];
  }

  // ------------------------------------------------------------------- search

  /** First index whose hash is not below h (the loop of find_key and of lookup). */
  function FindKey(keys: seq<Entry>, h: nat): (i: nat)
    ensures i <= |keys|
    ensures forall j | 0 <= j < i :: keys[j].hash < h
    ensures i < |keys| ==> keys[i].hash >= h
  {
    if keys == [] || keys[0].hash >= h then 0 else 1 + FindKey(keys[1..], h)
  }

  /** Search with the index bound of delete (index < nr_of_keys). */
  function Lookup(tr: Tree, h: nat): Option<Entry> {
    var i := FindKey(tr.keys, h);
    if i < |tr.keys| && tr.keys[i].hash == h then Some(tr.keys[i])
    else if i < |tr.kids| then Lookup(tr.kids[i], h)
    else None
  }

  lemma {:induction false} LeftLast(kids: seq<Tree>, keys: seq<Entry>)
    requires 0 < |keys| == |kids|
    ensures Left(kids, keys) != [] && Left(kids, keys)[|Left(kids, keys)| - 1] == keys[|keys| - 1]
  {
    if |keys| > 1 {
      LeftLast(kids[1..], keys[1..]);
    }
  }

  /** Around the child a search for h goes to, h is nowhere else. */
  lemma SearchWindow(tr: Tree, i: nat, h: nat)
    requires Belongs(tr, i, h) && Sorted(Flat(tr))
    ensures forall j | 0 <= j < |Before(tr, i)| :: Before(tr, i)[j].hash < h
    ensures forall j | 0 <= j < |After(tr, i)| :: After(tr, i)[j].hash > h
    ensures Sorted(Flat(tr.kids[i]))
  {
    var l, m, r := Before(tr, i), Flat(tr.kids[i]), After(tr, i);
    FlatAt(tr, i);
    SortedSplit(l, m, r);
    if i > 0 {
      LeftLast(tr.kids[..i], tr.keys[..i]);
    }
    if i < |tr.keys| {
      assert r[0] == tr.keys[i];
    }
  }

  lemma SortedSplit(l: seq<Entry>, m: seq<Entry>, r: seq<Entry>)
    requires Sorted(l + m + r)
    ensures Sorted(l) && Sorted(m) && Sorted(r)
    ensures forall x, y | x in l && y in m + r :: x.hash < y.hash
    ensures forall x, y | x in m && y in r :: x.hash < y.hash
  {
    var s := l + m + r;
    assert forall i | 0 <= i < |l| :: s[i] == l[i];
    assert forall i | 0 <= i < |m| :: s[|l| + i] == m[i];
    assert forall i | 0 <= i < |r| :: s[|l| + |m| + i] == r[i];
    assert forall i | 0 <= i < |m + r| :: s[|l| + i] == (m + r)[i];
  }

  /** A node's keys, read off the sequence: for x among the keys the tree holds x. */
  lemma KeyWindow(tr: Tree, i: nat)
    requires |tr.kids| == |tr.keys| + 1 && i < |tr.keys|
    requires Sorted(Flat(tr))
    ensures Absent(Before(tr, i) + Flat(tr.kids[i]), tr.keys[i].hash)
    ensures Absent(Flat(tr.kids[i + 1]) + After(tr, i + 1), tr.keys[i].hash)
    ensures Flat(tr) == (Before(tr, i) + Flat(tr.kids[i])) + [tr.keys[i]] + (Flat(tr.kids[i + 1]) + After(tr, i + 1))
  {
    FlatPair(tr, i);
    var l, r := Before(tr, i) + Flat(tr.kids[i]), Flat(tr.kids[i + 1]) + After(tr, i + 1);
    assert Flat(tr) == l + [tr.keys[i]] + r;
    SortedSplit(l, [tr.keys[i]], r);
  }

  /** B-tree search agrees with linear search in the in-order sequence. */
  lemma {:induction false} LookupIsFind(t: nat, tr: Tree, h: nat, x: nat)
    requires Shape(t, tr, h) && Sorted(Flat(tr))
    ensures Lookup(tr, x) == Find(Flat(tr), x)
    decreases h
  {
    var i := FindKey(tr.keys, x);
    if h == 0 {
      LeafFind(tr.keys, x);
    } else if i < |tr.keys| && tr.keys[i].hash == x {
      KeyWindow(tr, i);
      FindMiddle(Before(tr, i) + Flat(tr.kids[i]), [tr.keys[i]], Flat(tr.kids[i + 1]) + After(tr, i + 1), x);
    } else {
      SearchWindow(tr, i, x);
      FlatAt(tr, i);
      FindMiddle(Before(tr, i), Flat(tr.kids[i]), After(tr, i), x);
      LookupIsFind(t, tr.kids[i], h - 1, x);
    }
  }

  lemma {:induction false} LeafFind(keys: seq<Entry>, x: nat)
    requires Sorted(keys)
    ensures var i := FindKey(keys, x);
            Find(keys, x) == if i < |keys| && keys[i].hash == x then Some(keys[i]) else None
  {
    if keys != [] {
      if keys[0].hash < x {
        LeafFind(keys[1..], x);
      } else {
        FindAbsent(keys, x);
      }
    }
  }

  // ------------------------------------------------------------------- insert

  /** The full child i cut in two around its middle key. */
  function SplitChild(t: nat, tr: Tree, i: nat): Tree
    requires 1 <= t && i < |tr.kids| == |tr.keys| + 1
    requires |tr.kids[i].keys| == 2 * t - 1
  {
    var c := tr.kids[i];
    Node(tr.keys[..i] + [c.keys[t - 1]] + tr.keys[i..],
         tr.kids[..i] + [LowHalf(t, c), HighHalf(t, c)] + tr.kids[i + 1..])
  }

  function LowHalf(t: nat, c: Tree): Tree
    requires 1 <= t && |c.keys| == 2 * t - 1
  {
    Node(c.keys[..t - 1], if |c.kids| < 2 * t then [] else c.kids[..t])
  }

  function HighHalf(t: nat, c: Tree): Tree
    requires 1 <= t && |c.keys| == 2 * t - 1
  {
    Node(c.keys[t..], if |c.kids| < 2 * t then [] else c.kids[t..])
  }

  lemma HalvesGlue(t: nat, c: Tree, h: nat)
    requires 1 <= t && Shape(t, c, h) && |c.keys| == 2 * t - 1
    ensures Glue(LowHalf(t, c), c.keys[t - 1], HighHalf(t, c)) == c
    ensures SameKind(LowHalf(t, c), HighHalf(t, c))
    ensures Shape(t, LowHalf(t, c), h) && Shape(t, HighHalf(t, c), h)
    ensures |LowHalf(t, c).keys| == |HighHalf(t, c).keys| == t - 1
  {
  }

  /** Splitting a child keeps the shape, */
  lemma SplitShape(t: nat, tr: Tree, h: nat, i: nat)
    requires 1 <= t && 0 < h && |tr.keys| < 2 * t - 1
    requires Shape(t, tr, h) && i < |tr.kids| && |tr.kids[i].keys| == 2 * t - 1
    ensures Shape(t, SplitChild(t, tr, i), h)
  {
    hide LowHalf, HighHalf, Glue;
    var s := SplitChild(t, tr, i);
    HalvesGlue(t, tr.kids[i], h - 1);
    forall j | 0 <= j < |s.kids|
      ensures Shape(t, s.kids[j], h - 1) && t - 1 <= |s.kids[j].keys|
    {
      if j < i { assert s.kids[j] == tr.kids[j]; } else if j > i + 1 { assert s.kids[j] == tr.kids[j - 1]; }
    }
  }

  /** does not change the sequence of entries, */
  lemma SplitFlat(t: nat, tr: Tree, h: nat, i: nat)
    requires 1 <= t && 0 < h
    requires Shape(t, tr, h) && i < |tr.kids| && |tr.kids[i].keys| == 2 * t - 1
    ensures Flat(SplitChild(t, tr, i)) == Flat(tr)
  {
    var c := tr.kids[i];
    var s := SplitChild(t, tr, i);
    HalvesGlue(t, c, h - 1);
    FlatGlue(LowHalf(t, c), c.keys[t - 1], HighHalf(t, c));
    FlatAt(tr, i);
    FlatPair(s, i);
    SplitContext(t, tr, i);
  }

  /** The rest of the parent stays where it was. */
  lemma SplitContext(t: nat, tr: Tree, i: nat)
    requires 1 <= t && i < |tr.kids| == |tr.keys| + 1 && |tr.kids[i].keys| == 2 * t - 1
    ensures Before(SplitChild(t, tr, i), i) == Before(tr, i)
    ensures After(SplitChild(t, tr, i), i + 1) == After(tr, i)
  {
    var s := SplitChild(t, tr, i);
    assert s.kids[..i] == tr.kids[..i] && s.keys[..i] == tr.keys[..i];
    assert s.kids[i + 2..] == tr.kids[i + 1..] && s.keys[i + 1..] == tr.keys[i..];
  }

  /** and adds one node. */
  lemma SplitSize(t: nat, tr: Tree, h: nat, i: nat)
    requires 1 <= t && 0 < h
    requires Shape(t, tr, h) && i < |tr.kids| && |tr.kids[i].keys| == 2 * t - 1
    ensures Size(SplitChild(t, tr, i)) == Size(tr) + 1
  {
    hide SizeAll, LowHalf, HighHalf, Glue;
    var c := tr.kids[i];
    HalvesGlue(t, c, h - 1);
    SizeGlue(LowHalf(t, c), c.keys[t - 1], HighHalf(t, c));
    assert tr.kids == tr.kids[..i] + [c] + tr.kids[i + 1..];
    SizeOne(tr.kids[..i], c, tr.kids[i + 1..]);
    SizeTwo(tr.kids[..i], LowHalf(t, c), HighHalf(t, c), tr.kids[i + 1..]);
  }

  lemma SizeOne(a: seq<Tree>, c: Tree, b: seq<Tree>)
    ensures SizeAll(a + [c] + b) == SizeAll(a) + Size(c) + SizeAll(b)
  {
    hide SizeAll;
    SizeAppend(a + [c], b);
    SizeAppend(a, [c]);
    SizeSingle(c);
  }

  lemma SizeTwo(a: seq<Tree>, c: Tree, d: Tree, b: seq<Tree>)
    ensures SizeAll(a + [c, d] + b) == SizeAll(a) + Size(c) + Size(d) + SizeAll(b)
  {
    hide SizeAll;
    assert a + [c, d] + b == a + [c] + ([d] + b);
    SizeOne(a, c, [d] + b);
    SizeAppend([d], b);
    SizeSingle(d);
  }

  lemma SizeSingle(c: Tree)
    ensures SizeAll([c]) == Size(c)
  {
    assert [c][1..] == [];
  }

  lemma SizeGlue(a: Tree, x: Entry, b: Tree)
    ensures Size(Glue(a, x, b)) + 1 == Size(a) + Size(b)
  {
    hide SizeAll;
    SizeAppend(a.kids, b.kids);
  }

  /** Scanning from the right: the position after the last key not above h. */
  function InsertPos(keys: seq<Entry>, h: nat): (i: nat)
    ensures i <= |keys|
    ensures i == 0 || keys[i - 1].hash <= h
    ensures forall j | i <= j < |keys| :: keys[j].hash > h
  {
    if keys == [] || keys[|keys| - 1].hash <= h then |keys| else InsertPos(keys[..|keys| - 1], h)
  }

  /** Which side of a freshly split child i the entry goes to. */
  function SplitSide(s: Tree, i: nat, e: Entry): nat
    requires i < |s.keys|
  {
    if s.keys[i].hash < e.hash then i + 1 else i
  }

  /** One level of the descent: the node after a split of its child, if that one was
      full, and the index of the child to go on with. */
  function Descend(t: nat, tr: Tree, e: Entry): (Tree, nat)
    requires 1 <= t && |tr.kids| == |tr.keys| + 1
  {
    var i := InsertPos(tr.keys, e.hash);
    if |tr.kids[i].keys| == 2 * t - 1 then
      var s := SplitChild(t, tr, i);
      (s, SplitSide(s, i, e))
    else
      (tr, i)
  }

  lemma DescendShape(t: nat, tr: Tree, h: nat, e: Entry)
    requires 2 <= t && 0 < h && Shape(t, tr, h) && |tr.keys| < 2 * t - 1
    ensures var (s, j) := Descend(t, tr, e);
            && Shape(t, s, h) && |tr.keys| <= |s.keys|
            && j < |s.kids| && |s.kids[j].keys| < 2 * t - 1 && Shape(t, s.kids[j], h - 1)
  {
    var i := InsertPos(tr.keys, e.hash);
    if |tr.kids[i].keys| == 2 * t - 1 {
      SplitShape(t, tr, h, i);
    }
  }

  lemma DescendFlat(t: nat, tr: Tree, h: nat, e: Entry)
    requires 2 <= t && 0 < h && Shape(t, tr, h) && |tr.keys| < 2 * t - 1
    requires Sorted(Flat(tr)) && Absent(Flat(tr), e.hash)
    ensures var (s, j) := Descend(t, tr, e); Flat(s) == Flat(tr) && Belongs(s, j, e.hash)
  {
    var i := InsertPos(tr.keys, e.hash);
    AbsentKeys(tr, e.hash);
    if |tr.kids[i].keys| == 2 * t - 1 {
      var s := SplitChild(t, tr, i);
      SplitFlat(t, tr, h, i);
      AbsentKeys(s, e.hash);
      assert i > 0 ==> s.keys[i - 1] == tr.keys[i - 1];
      assert i < |tr.keys| ==> s.keys[i + 1] == tr.keys[i];
    }
  }

  /** insert_non_full: split every full node on the way down, add at the leaf. */
  ghost function InsertNonFull(t: nat, tr: Tree, h: nat, e: Entry): (r: Tree)
    requires 2 <= t && Shape(t, tr, h) && |tr.keys| < 2 * t - 1
    ensures Shape(t, r, h) && |tr.keys| <= |r.keys|
    decreases h
  {
    if h == 0 then
      var i := InsertPos(tr.keys, e.hash);
      Node(tr.keys[..i] + [e] + tr.keys[i..], [])
    else
      DescendShape(t, tr, h, e);
      var (s, j) := Descend(t, tr, e);
      Node(s.keys, s.kids[j := InsertNonFull(t, s.kids[j], h - 1, e)])
  }

  /** How many blocks that takes: one for every split on the way down. */
  ghost function Splits(t: nat, tr: Tree, h: nat, e: Entry): (n: nat)
    requires 2 <= t && Shape(t, tr, h) && |tr.keys| < 2 * t - 1
    ensures n <= h
    decreases h
  {
    if h == 0 then 0
    else
      DescendShape(t, tr, h, e);
      var (s, j) := Descend(t, tr, e);
      (if s == tr then 0 else 1) + Splits(t, s.kids[j], h - 1, e)
  }

  /** Child i is where hash x belongs: the keys on both sides of it say so. */
  ghost predicate Belongs(tr: Tree, i: nat, x: nat) {
    && i < |tr.kids| == |tr.keys| + 1
    && (i == 0 || tr.keys[i - 1].hash < x)
    && (i == |tr.keys| || tr.keys[i].hash > x)
  }

  /** Inserting below child i is inserting into the whole sequence, if i is the child
      the hash belongs to. */
  lemma InsertBelow(tr: Tree, i: nat, e: Entry, c: Tree)
    requires Belongs(tr, i, e.hash) && Sorted(Flat(tr))
    requires Flat(c) == SortedInsert(Flat(tr.kids[i]), e)
    ensures Flat(Node(tr.keys, tr.kids[i := c])) == SortedInsert(Flat(tr), e)
  {
    SearchWindow(tr, i, e.hash);
    FlatAt(tr, i);
    FlatReplace(tr, i, c);
    InsertMiddle(Before(tr, i), Flat(tr.kids[i]), After(tr, i), e);
  }

  /** A key of an internal node is an entry of the tree. */
  lemma KeyPresent(tr: Tree, i: nat)
    requires |tr.kids| == |tr.keys| + 1 && i < |tr.keys|
    ensures tr.keys[i] in Flat(tr)
  {
    FlatPair(tr, i);
  }

  lemma AbsentKeys(tr: Tree, x: nat)
    requires |tr.kids| == |tr.keys| + 1 && Absent(Flat(tr), x)
    ensures forall j | 0 <= j < |tr.keys| :: tr.keys[j].hash != x
  {
    forall j | 0 <= j < |tr.keys|
      ensures tr.keys[j].hash != x
    {
      KeyPresent(tr, j);
    }
  }

  lemma AbsentKid(tr: Tree, i: nat, x: nat)
    requires |tr.kids| == |tr.keys| + 1 && i < |tr.kids| && Absent(Flat(tr), x)
    ensures Absent(Flat(tr.kids[i]), x)
  {
    FlatAt(tr, i);
    AbsentPart(Before(tr, i), Flat(tr.kids[i]), After(tr, i), x);
  }

  lemma AbsentPart(l: seq<Entry>, m: seq<Entry>, r: seq<Entry>, x: nat)
    ensures Absent(l + m + r, x) <==> Absent(l, x) && Absent(m, x) && Absent(r, x)
  {
    var s := l + m + r;
    assert forall i | 0 <= i < |l| :: s[i] == l[i];
    assert forall i | 0 <= i < |m| :: s[|l| + i] == m[i];
    assert forall i | 0 <= i < |r| :: s[|l| + |m| + i] == r[i];
  }

  lemma LeafFlat(tr: Tree)
    requires tr.kids == []
    ensures Flat(tr) == tr.keys
  {
  }

  lemma LeafSize(tr: Tree)
    requires tr.kids == []
    ensures Size(tr) == 1
  {
  }

  lemma LeafInsert(keys: seq<Entry>, e: Entry)
    requires Sorted(keys)
    ensures var i := InsertPos(keys, e.hash);
            keys[..i] + [e] + keys[i..] == SortedInsert(keys, e)
  {
    var i := InsertPos(keys, e.hash);
    assert keys == keys[..i] + [] + keys[i..];
    InsertMiddle(keys[..i], [], keys[i..], e);
  }

  /** Insertion of an absent hash into a node that is not full, through every cascade of
      splits below it, is sorted insertion into the sequence of entries. */
  lemma {:induction false} InsertNonFullFlat(t: nat, tr: Tree, h: nat, e: Entry)
    requires 2 <= t && Shape(t, tr, h) && |tr.keys| < 2 * t - 1
    requires Sorted(Flat(tr)) && Absent(Flat(tr), e.hash)
    ensures Flat(InsertNonFull(t, tr, h, e)) == SortedInsert(Flat(tr), e)
    decreases h
  {
    hide Sorted, Absent, Flat, Descend, SortedInsert;
    if h == 0 {
      LeafFlat(tr);
      LeafInsert(tr.keys, e);
      LeafFlat(InsertNonFull(t, tr, h, e));
    } else {
      var (s, j) := Descend(t, tr, e);
      DescendShape(t, tr, h, e);
      DescendFlat(t, tr, h, e);
      AbsentKid(s, j, e.hash);
      SearchWindow(s, j, e.hash);
      InsertNonFullFlat(t, s.kids[j], h - 1, e);
      InsertBelow(s, j, e, InsertNonFull(t, s.kids[j], h - 1, e));
    }
  }

  lemma DescendSize(t: nat, tr: Tree, h: nat, e: Entry)
    requires 2 <= t && 0 < h && Shape(t, tr, h) && |tr.keys| < 2 * t - 1
    ensures var (s, j) := Descend(t, tr, e); Size(s) == Size(tr) + if s == tr then 0 else 1
  {
    var i := InsertPos(tr.keys, e.hash);
    if |tr.kids[i].keys| == 2 * t - 1 {
      SplitSize(t, tr, h, i);
    }
  }

  /** Exactly one node appears per split. */
  lemma {:induction false} InsertNonFullSize(t: nat, tr: Tree, h: nat, e: Entry)
    requires 2 <= t && Shape(t, tr, h) && |tr.keys| < 2 * t - 1
    ensures Size(InsertNonFull(t, tr, h, e)) == Size(tr) + Splits(t, tr, h, e)
    decreases h
  {
    hide Size, Descend;
    if h == 0 {
      LeafSize(tr);
      LeafSize(InsertNonFull(t, tr, h, e));
    } else {
      var (s, j) := Descend(t, tr, e);
      DescendShape(t, tr, h, e);
      DescendSize(t, tr, h, e);
      InsertNonFullSize(t, s.kids[j], h - 1, e);
      SizeReplace(s, j, InsertNonFull(t, s.kids[j], h - 1, e));
    }
  }

  lemma SizeReplace(tr: Tree, i: nat, c: Tree)
    requires i < |tr.kids|
    ensures Size(Node(tr.keys, tr.kids[i := c])) == Size(tr) - Size(tr.kids[i]) + Size(c)
  {
    SizeOne(tr.kids[..i], tr.kids[i], tr.kids[i + 1..]);
    SizeOne(tr.kids[..i], c, tr.kids[i + 1..]);
    assert tr.kids == tr.kids[..i] + [tr.kids[i]] + tr.kids[i + 1..];
    assert tr.kids[i := c] == tr.kids[..i] + [c] + tr.kids[i + 1..];
  }
}
