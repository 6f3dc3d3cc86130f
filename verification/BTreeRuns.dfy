/** The tree as seen from its root block: growth, shrinking, the file counter, and whole
    runs of operations against a finite map. */
module BTreeRuns {
  import opened Entries
  import opened BTree
  import opened BTreeDelete

  /** A directory's tree with the counter its root block keeps. */
  datatype Dir = Dir(tree: Tree, height: nat, nrOfFiles: int)

  const EMPTY := Dir(Node([], []), 0, 0)

  ghost predicate Valid(t: nat, d: Dir) {
    && 2 <= t && Shape(t, d.tree, d.height) && (0 < d.height ==> 1 <= |d.tree.keys|)
    && Sorted(Flat(d.tree)) && d.nrOfFiles == |Flat(d.tree)|
  }

  /** The finite map a directory's tree stands for. */
  function Contents(d: Dir): map<nat, Entry> { Dict(Flat(d.tree)) }

  /** A full root first becomes the only child of a new one. */
  ghost function InsertTree(t: nat, tr: Tree, h: nat, e: Entry): (r: Tree)
    requires 2 <= t && Shape(t, tr, h) && (0 < h ==> 1 <= |tr.keys|)
    ensures Shape(t, r, InsertHeight(t, tr, h)) && 0 <= |r.keys|
  {
    if |tr.keys| == 2 * t - 1 then InsertNonFull(t, Node([], [tr]), h + 1, e)
    else InsertNonFull(t, tr, h, e)
  }

  function InsertHeight(t: nat, tr: Tree, h: nat): nat
    requires 1 <= t
  {
    if |tr.keys| == 2 * t - 1 then h + 1 else h
  }

  ghost function Insert(t: nat, d: Dir, e: Entry): Dir
    requires Valid(t, d)
  {
    Dir(InsertTree(t, d.tree, d.height, e), InsertHeight(t, d.tree, d.height), d.nrOfFiles + 1)
  }

  /** An internal root left without keys gives way to its only child. */
  ghost function DeleteTree(t: nat, tr: Tree, h: nat, x: nat): Tree
    requires 2 <= t && Shape(t, tr, h) && (0 < h ==> 1 <= |tr.keys|)
  {
    var r := Delete(t, tr, h, x);
    if r.keys == [] && r.kids != [] then r.kids[0] else r
  }

  ghost function DeleteHeight(t: nat, tr: Tree, h: nat, x: nat): nat
    requires 2 <= t && Shape(t, tr, h) && (0 < h ==> 1 <= |tr.keys|)
  {
    var r := Delete(t, tr, h, x);
    if r.keys == [] && r.kids != [] then h - 1 else h
  }

  ghost function DeleteEntry(t: nat, d: Dir, x: nat): Dir
    requires Valid(t, d)
  {
    Dir(DeleteTree(t, d.tree, d.height, x), DeleteHeight(t, d.tree, d.height, x), d.nrOfFiles - 1)
  }

  lemma InsertTreeFlat(t: nat, tr: Tree, h: nat, e: Entry)
    requires 2 <= t && Shape(t, tr, h) && (0 < h ==> 1 <= |tr.keys|)
    requires Sorted(Flat(tr)) && Absent(Flat(tr), e.hash)
    ensures Flat(InsertTree(t, tr, h, e)) == SortedInsert(Flat(tr), e)
    ensures 0 < InsertHeight(t, tr, h) ==> 1 <= |InsertTree(t, tr, h, e).keys|
  {
    hide Sorted, Absent, SortedInsert, InsertNonFull;
    if |tr.keys| == 2 * t - 1 {
      var root := Node([], [tr]);
      assert Flat(root) == Flat(tr);
      InsertNonFullFlat(t, root, h + 1, e);
      GrownRootKeys(t, tr, h, e);
    } else {
      InsertNonFullFlat(t, tr, h, e);
    }
  }

  lemma GrownRootKeys(t: nat, tr: Tree, h: nat, e: Entry)
    requires 2 <= t && Shape(t, tr, h) && |tr.keys| == 2 * t - 1
    ensures |InsertNonFull(t, Node([], [tr]), h + 1, e).keys| == 1
  {
  }

  /** Inserting an absent hash gives a valid directory whose map gains exactly that
      binding; the height grows by one when the root was full and not otherwise. */
  lemma InsertCorrect(t: nat, d: Dir, e: Entry)
    requires Valid(t, d) && e.hash !in Contents(d)
    ensures Valid(t, Insert(t, d, e))
    ensures Contents(Insert(t, d, e)) == Contents(d)[e.hash := e]
    ensures Insert(t, d, e).height == d.height + if |d.tree.keys| == 2 * t - 1 then 1 else 0
  {
    hide Flat, Sorted, Absent, InsertTree, Shape;
    DictKeys(Flat(d.tree), e.hash);
    InsertTreeFlat(t, d.tree, d.height, e);
    InsertIsUpdate(Flat(d.tree), e);
  }

  lemma DeleteTreeFlat(t: nat, tr: Tree, h: nat, x: nat)
    requires 2 <= t && Shape(t, tr, h) && (0 < h ==> 1 <= |tr.keys|) && Sorted(Flat(tr))
    ensures Flat(DeleteTree(t, tr, h, x)) == Remove(Flat(tr), x)
    ensures Shape(t, DeleteTree(t, tr, h, x), DeleteHeight(t, tr, h, x))
    ensures 0 < DeleteHeight(t, tr, h, x) ==> 1 <= |DeleteTree(t, tr, h, x).keys|
  {
    hide Delete, Sorted, Remove;
    DeleteFlat(t, tr, h, x);
  }

  /** Deleting a present hash gives a valid directory whose map loses exactly that binding;
      the height drops by one when the root runs out of keys and not otherwise. */
  lemma DeleteCorrect(t: nat, d: Dir, x: nat)
    requires Valid(t, d) && x in Contents(d)
    ensures Valid(t, DeleteEntry(t, d, x))
    ensures Contents(DeleteEntry(t, d, x)) == Contents(d) - {x}
    ensures d.height - 1 <= DeleteEntry(t, d, x).height <= d.height
  {
    hide Flat, Sorted, DeleteTree, Shape;
    DeleteTreeFlat(t, d.tree, d.height, x);
    RemoveIsDelete(Flat(d.tree), x);
  }

  /** delete decrements the counter without asking whether anything was deleted: the
      counter is still the number of keys exactly when the hash was there. */
  lemma DeleteCountExact(t: nat, d: Dir, x: nat)
    requires Valid(t, d)
    ensures DeleteEntry(t, d, x).nrOfFiles == |Flat(DeleteEntry(t, d, x).tree)| <==> x in Contents(d)
  {
    hide Flat, Sorted, DeleteTree, Shape;
    DeleteTreeFlat(t, d.tree, d.height, x);
    RemoveIsDelete(Flat(d.tree), x);
  }

  // ------------------------------------------------------------------- runs

  datatype Op = AddOp(entry: Entry) | DeleteOp(hash: nat) | LookupOp(hash: nat)

  /** One operation as the directory code issues it: an existing hash is not added
      again, and only existing hashes are deleted. */
  ghost function Apply(t: nat, d: Dir, op: Op): (Dir, Option<Entry>)
    requires Valid(t, d)
  {
    match op
    case AddOp(e) => (if Lookup(d.tree, e.hash).None? then Insert(t, d, e) else d, Lookup(d.tree, e.hash))
    case DeleteOp(x) => (if Lookup(d.tree, x).Some? then DeleteEntry(t, d, x) else d, Lookup(d.tree, x))
    case LookupOp(x) => (d, Lookup(d.tree, x))
  }

  /** The same operation on a finite map. */
  function MapApply(m: map<nat, Entry>, op: Op): (map<nat, Entry>, Option<Entry>) {
    match op
    case AddOp(e) => (if e.hash in m then m else m[e.hash := e], MapGet(m, e.hash))
    case DeleteOp(x) => (m - {x}, MapGet(m, x))
    case LookupOp(x) => (m, MapGet(m, x))
  }

  function MapGet(m: map<nat, Entry>, x: nat): Option<Entry> {
    if x in m then Some(m[x]) else None
  }

  lemma LookupContents(t: nat, d: Dir, x: nat)
    requires Valid(t, d)
    ensures Lookup(d.tree, x) == MapGet(Contents(d), x)
  {
    LookupIsFind(t, d.tree, d.height, x);
    FindIsDict(Flat(d.tree), x);
  }

  lemma ApplyRefines(t: nat, d: Dir, op: Op)
    requires Valid(t, d)
    ensures var (d', r) := Apply(t, d, op); var (m', s) := MapApply(Contents(d), op);
            && Valid(t, d') && Contents(d') == m' && r == s
            && d.height - 1 <= d'.height <= d.height + 1
  {
    hide Valid, Lookup, Insert, DeleteEntry, Contents;
    match op
    case AddOp(e) =>
      LookupContents(t, d, e.hash);
      if e.hash !in Contents(d) { InsertCorrect(t, d, e); }
    case DeleteOp(x) =>
      LookupContents(t, d, x);
      if x in Contents(d) { DeleteCorrect(t, d, x); } else { assert Contents(d) - {x} == Contents(d); }
    case LookupOp(x) =>
      LookupContents(t, d, x);
  }

  ghost function Run(t: nat, d: Dir, ops: seq<Op>): (Dir, seq<Option<Entry>>)
    requires Valid(t, d)
    decreases |ops|
  {
    if ops == [] then (d, [])
    else
      var (d', r) := Apply(t, d, ops[0]);
      ApplyRefines(t, d, ops[0]);
      var (d'', rs) := Run(t, d', ops[1..]);
      (d'', [r] + rs)
  }

  function MapRun(m: map<nat, Entry>, ops: seq<Op>): (map<nat, Entry>, seq<Option<Entry>>)
    decreases |ops|
  {
    if ops == [] then (m, [])
    else
      var (m', r) := MapApply(m, ops[0]);
      var (m'', rs) := MapRun(m', ops[1..]);
      (m'', [r] + rs)
  }

  /** Over every run the tree answers as the finite map does, and stays a valid B-tree
      whose counter is its number of keys. */
  lemma {:induction false} RunRefines(t: nat, d: Dir, ops: seq<Op>)
    requires Valid(t, d)
    ensures Valid(t, Run(t, d, ops).0)
    ensures Contents(Run(t, d, ops).0) == MapRun(Contents(d), ops).0
    ensures Run(t, d, ops).1 == MapRun(Contents(d), ops).1
    decreases |ops|
  {
    hide Valid, Contents, Apply, MapApply;
    if ops != [] {
      ApplyRefines(t, d, ops[0]);
      RunRefines(t, Apply(t, d, ops[0]).0, ops[1..]);
    }
  }

  lemma EmptyValid(t: nat)
    requires 2 <= t
    ensures Valid(t, EMPTY) && Contents(EMPTY) == map[]
  {
    assert Flat(EMPTY.tree) == [];
  }
}
