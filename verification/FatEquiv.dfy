/** The hashed directory and the flat one give the same answers, as long as the hashes of the
    names in use are distinct and every inode has one name. */
module FatEquiv {
  import BTreeRuns
  import opened Directory
  import opened FatDir

  /** The hash tells the names of u apart. */
  ghost predicate HashesApart(h: Hash, u: set<seq<nat>>) {
    forall a, b | a in u && b in u && a != b :: h(a) != h(b)
  }

  ghost predicate OneNameEach(es: seq<FEntry>, u: set<seq<nat>>) {
    && (forall i | 0 <= i < |es| :: es[i].name in u && es[i].ino != 0)
    && forall i, j | 0 <= i < j < |es| :: es[i].name != es[j].name && es[i].ino != es[j].ino
  }

  /** Both directories know the same names for the same inodes. */
  ghost predicate Same(t: nat, h: Hash, u: set<seq<nat>>, s: Store, es: seq<FEntry>) {
    && Good(t, h, s) && OneNameEach(es, u)
    && forall name | name in u :: FindName(es, name) == Search(h, s, name)
  }

  datatype Op = AddOp(name: seq<nat>, ino: nat, spare: nat) | DeleteOp(name: seq<nat>) | FindOp(name: seq<nat>)

  /** What the VFS issues: new names and inodes are new, deleted names are there. */
  ghost predicate Issued(u: set<seq<nat>>, s: Store, es: seq<FEntry>, op: Op) {
    match op
    case AddOp(name, ino, spare) =>
      name in u && FindName(es, name) == 0 && IsIno(ino) && spare !in s.names.bnos && forall e | e in es :: e.ino != ino
    case DeleteOp(name) => name in u && FindName(es, name) != 0
    case FindOp(name) => name in u
  }

  /** The flat directory; it deletes by inode. */
  function FatStep(es: seq<FEntry>, op: Op): (seq<FEntry>, nat) {
    match op
    case AddOp(name, ino, _) => (es + [FEntry(ino, name)], 0)
    case DeleteOp(name) => (Without(es, PosOf(es, FindName(es, name))), 0)
    case FindOp(name) => (es, FindName(es, name))
  }

  ghost function TreeStep(t: nat, h: Hash, s: Store, op: Op): (Store, nat)
    requires Good(t, h, s)
  {
    match op
    case AddOp(name, ino, spare) => (Add(t, h, s, name, ino, spare), 0)
    case DeleteOp(name) => (Delete(t, h, s, name), 0)
    case FindOp(name) => (s, Search(h, s, name))
  }

  /** A name is found where it stands. */
  lemma {:induction false} FoundAt(es: seq<FEntry>, u: set<seq<nat>>, name: seq<nat>) returns (p: nat)
    requires OneNameEach(es, u)
    ensures p <= |es| && (p < |es| <==> FindName(es, name) != 0)
            && (p < |es| ==> es[p] == FEntry(FindName(es, name), name))
    ensures forall q | 0 <= q < |es| :: es[q].name == name ==> q == p
  {
    if es == [] || es[0].name == name {
      p := 0;
    } else {
      p := FoundAt(es[1..], u, name);
      p := p + 1;
    }
  }

  lemma AddSame(t: nat, h: Hash, u: set<seq<nat>>, s: Store, es: seq<FEntry>, name: seq<nat>, ino: nat, spare: nat)
    requires Same(t, h, u, s, es) && HashesApart(h, u) && Issued(u, s, es, AddOp(name, ino, spare))
    ensures Same(t, h, u, Add(t, h, s, name, ino, spare), es + [FEntry(ino, name)])
  {
    hide Good, Add, Search, FindName, BTreeRuns.Contents, NewEntry;
    var es', s' := es + [FEntry(ino, name)], Add(t, h, s, name, ino, spare);
    AddGood(t, h, s, name, ino, spare);
    var pos := FoundAt(es, u, name);
    SearchIs(t, h, s, name);
    GoodLengths(t, h, s);
    EntryIno(h, s, name, ino, spare);
    forall other | other in u
      ensures FindName(es', other) == Search(h, s', other)
    {
      SearchIs(t, h, s, other);
      SearchIs(t, h, s', other);
      if other == name {
        FindNameFrom(es', name, |es|);
      } else {
        var q := FoundAt(es, u, other);
        FindNameFrom(es', other, if q < |es| then q else |es'|);
      }
    }
  }

  lemma GoodLengths(t: nat, h: Hash, s: Store)
    requires Good(t, h, s)
    ensures |s.names.bnos| == |s.names.recs|
  {
  }

  lemma EntryIno(h: Hash, s: Store, name: seq<nat>, ino: nat, spare: nat)
    requires |s.names.bnos| == |s.names.recs|
    ensures NewEntry(h, s.names, name, ino, spare).ino == ino
  {
  }

  lemma DeleteSame(t: nat, h: Hash, u: set<seq<nat>>, s: Store, es: seq<FEntry>, name: seq<nat>)
    requires Same(t, h, u, s, es) && HashesApart(h, u) && Issued(u, s, es, DeleteOp(name))
    ensures Same(t, h, u, Delete(t, h, s, name), Without(es, PosOf(es, FindName(es, name))))
  {
    hide Good, Delete, Search, FindName, BTreeRuns.Contents, PosOf, OneNameEach, Without;
    DeleteGood(t, h, s, name);
    var p := FoundAt(es, u, name);
    InoAt(es, u, FindName(es, name), p);
    var s' := Delete(t, h, s, name);
    WithoutOneName(es, u, p);
    forall other | other in u
      ensures FindName(Without(es, p), other) == Search(h, s', other)
    {
      SearchIs(t, h, s, other);
      SearchIs(t, h, s', other);
      WithoutFind(es, u, p, other);
    }
  }

  lemma InoAt(es: seq<FEntry>, u: set<seq<nat>>, ino: nat, p: nat)
    requires OneNameEach(es, u) && p < |es| && es[p].ino == ino
    ensures PosOf(es, ino) == p
  {
    PosIs(es, ino, p);
  }

  lemma WithoutOneName(es: seq<FEntry>, u: set<seq<nat>>, p: nat)
    requires OneNameEach(es, u) && p < |es|
    ensures OneNameEach(Without(es, p), u)
  {
    var r := Without(es, p);
    assert forall i | 0 <= i < |r| :: r[i] == if i < p then es[i] else es[i + 1];
  }

  lemma WithoutFind(es: seq<FEntry>, u: set<seq<nat>>, p: nat, other: seq<nat>)
    requires OneNameEach(es, u) && p < |es|
    ensures FindName(Without(es, p), other) == if other == es[p].name then 0 else FindName(es, other)
  {
    hide FindName;
    var r := Without(es, p);
    assert forall i | 0 <= i < |r| :: r[i] == if i < p then es[i] else es[i + 1];
    var q := FoundAt(es, u, other);
    if other == es[p].name || q == |es| {
      FindNameFrom(r, other, |r|);
    } else {
      FindNameFrom(r, other, if q < p then q else q - 1);
    }
  }

  lemma StepSame(t: nat, h: Hash, u: set<seq<nat>>, s: Store, es: seq<FEntry>, op: Op)
    requires Same(t, h, u, s, es) && HashesApart(h, u) && Issued(u, s, es, op)
    ensures Same(t, h, u, TreeStep(t, h, s, op).0, FatStep(es, op).0)
    ensures TreeStep(t, h, s, op).1 == FatStep(es, op).1
  {
    hide Good, Add, Delete, Search, FindName, OneNameEach;
    match op
    case AddOp(name, ino, spare) => AddSame(t, h, u, s, es, name, ino, spare);
    case DeleteOp(name) => DeleteSame(t, h, u, s, es, name);
    case FindOp(name) =>
  }

  ghost predicate IssuedAll(t: nat, h: Hash, u: set<seq<nat>>, s: Store, es: seq<FEntry>, ops: seq<Op>)
    decreases |ops|
  {
    ops == [] ||
    (Good(t, h, s) && Issued(u, s, es, ops[0])
     && IssuedAll(t, h, u, TreeStep(t, h, s, ops[0]).0, FatStep(es, ops[0]).0, ops[1..]))
  }

  ghost function TreeRun(t: nat, h: Hash, s: Store, ops: seq<Op>): seq<nat>
    decreases |ops|
  {
    if ops == [] || !Good(t, h, s) then [] else
      var next := TreeStep(t, h, s, ops[0]);
      [next.1] + TreeRun(t, h, next.0, ops[1..])
  }

  function FatRun(es: seq<FEntry>, ops: seq<Op>): seq<nat>
    decreases |ops|
  {
    if ops == [] then [] else [FatStep(es, ops[0]).1] + FatRun(FatStep(es, ops[0]).0, ops[1..])
  }

  /** Over every run the two directories answer alike. */
  lemma {:induction false} RunSame(t: nat, h: Hash, u: set<seq<nat>>, s: Store, es: seq<FEntry>, ops: seq<Op>)
    requires Same(t, h, u, s, es) && HashesApart(h, u) && IssuedAll(t, h, u, s, es, ops)
    ensures TreeRun(t, h, s, ops) == FatRun(es, ops)
    decreases |ops|
  {
    hide Good, TreeStep, FatStep, OneNameEach, Search, FindName;
    if ops != [] {
      StepSame(t, h, u, s, es, ops[0]);
      RunSame(t, h, u, TreeStep(t, h, s, ops[0]).0, FatStep(es, ops[0]).0, ops[1..]);
    }
  }

  function NewStore(nameBno: nat): Store { Store(BTreeRuns.EMPTY, Names([nameBno], [[]])) }

  /** The first name is there, and the tree takes the second one for it. */
  lemma CollisionDiffers(t: nat, h: Hash, u: set<seq<nat>>, nameBno: nat, a: seq<nat>, b: seq<nat>)
    returns (ops: seq<Op>)
    requires 2 <= t && a in u && b in u && a != b && h(a) == h(b)
    ensures var s := NewStore(nameBno);
            IssuedAll(t, h, u, s, [], ops) && TreeRun(t, h, s, ops) == [0, 1] && FatRun([], ops) == [0, 0]
  {
    hide Addressed, BTreeRuns.Valid, Add, NewEntry, Search, BTreeRuns.Contents;
    var s, spare := NewStore(nameBno), nameBno + 1;
    NewSame(t, h, u, nameBno);
    var s1 := Add(t, h, s, a, 1, spare);
    AddGood(t, h, s, a, 1, spare);
    GoodLengths(t, h, s);
    EntryIno(h, s, a, 1, spare);
    SearchIs(t, h, s, a);
    SearchIs(t, h, s1, b);
    assert FindName([], a) == 0 && Search(h, s1, b) == 1;
    var es := [FEntry(1, a)];
    assert [] + es == es && FindName(es, b) == 0;
    ops := [AddOp(a, 1, spare), FindOp(b)];
    assert ops[1..] == [FindOp(b)] && ops[1..][1..] == [];
    assert TreeStep(t, h, s, ops[0]) == (s1, 0) && FatStep([], ops[0]) == (es, 0);
    assert TreeRun(t, h, s1, ops[1..]) == [1] && FatRun(es, ops[1..]) == [0];
    assert Issued(u, s1, es, FindOp(b)) && IssuedAll(t, h, u, s1, es, ops[1..]);
  }

  lemma NewSame(t: nat, h: Hash, u: set<seq<nat>>, nameBno: nat)
    requires 2 <= t
    ensures Same(t, h, u, NewStore(nameBno), []) && BTreeRuns.Contents(NewStore(nameBno).disk) == map[]
  {
    BTreeRuns.EmptyValid(t);
  }

  /** Whichever new directory one starts from, it takes distinct hashes, and no more, for the
      names of u to be answered alike in every run. */
  lemma ApartExact(t: nat, h: Hash, u: set<seq<nat>>, nameBno: nat)
    requires 2 <= t
    ensures HashesApart(h, u) <==>
            forall ops | IssuedAll(t, h, u, NewStore(nameBno), [], ops) ::
              TreeRun(t, h, NewStore(nameBno), ops) == FatRun([], ops)
  {
    hide Same, IssuedAll, TreeRun, FatRun, NewStore;
    NewSame(t, h, u, nameBno);
    if HashesApart(h, u) {
      forall ops | IssuedAll(t, h, u, NewStore(nameBno), [], ops)
        ensures TreeRun(t, h, NewStore(nameBno), ops) == FatRun([], ops)
      {
        RunSame(t, h, u, NewStore(nameBno), [], ops);
      }
    } else {
      var a, b :| a in u && b in u && a != b && h(a) == h(b);
      var ops := CollisionDiffers(t, h, u, nameBno, a, b);
    }
  }
}
