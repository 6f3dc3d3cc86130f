/** What a directory shows: the names a listing hands out, as a finite map from hash to name and
    inode. Insertion, deletion, search, rename and whole runs of requests are stated on that map,
    which knows neither tree nor name blocks. */
module Listing {
  import opened Entries
  import opened BTree
  import BTreeRuns
  import opened Bitmap
  import opened NameRecords
  import opened NameBlocks
  import NameList
  import opened Directory
  import opened DirectoryCache

  /** What a listing from position 0 hands out (ListEntries). */
  function Shown(s: Store): seq<Item> { NameList.Emitted(s.names.recs, 0, 0) }

  /** The items of a listing by the hash of their names. */
  function ByHash(h: Hash, l: seq<Item>): map<nat, Item> {
    if l == [] then map[] else ByHash(h, l[1..])[h(l[0].name) := l[0]]
  }

  ghost predicate OneEach(h: Hash, l: seq<Item>) { forall i, j | 0 <= i < j < |l| :: h(l[i].name) != h(l[j].name) }

  /** The finite map a directory stands for. */
  ghost function Shows(h: Hash, s: Store): map<nat, Item> { ByHash(h, Shown(s)) }

  // ------------------------------------------------------------ on sequences

  lemma {:induction false} ByHashHas(h: Hash, l: seq<Item>, x: nat)
    ensures x in ByHash(h, l) <==> exists i | 0 <= i < |l| :: h(l[i].name) == x
    ensures x in ByHash(h, l) ==> ByHash(h, l)[x] in l && h(ByHash(h, l)[x].name) == x
  {
    if l != [] {
      ByHashHas(h, l[1..], x);
      if i :| 0 <= i < |l| && h(l[i].name) == x {
        assert i > 0 ==> l[1..][i - 1] == l[i];
      }
      if i :| 0 <= i < |l[1..]| && h(l[1..][i].name) == x {
        assert l[i + 1] == l[1..][i];
      }
    }
  }

  lemma RestEach(h: Hash, l: seq<Item>)
    requires OneEach(h, l) && l != []
    ensures OneEach(h, l[1..]) && forall i | 0 <= i < |l[1..]| :: h(l[1..][i].name) != h(l[0].name)
  {
    var rest := l[1..];
    assert forall i | 0 <= i < |rest| :: rest[i] == l[i + 1];
  }

  lemma {:induction false} ByHashIs(h: Hash, l: seq<Item>)
    requires OneEach(h, l)
    ensures |ByHash(h, l)| == |l| && forall i | 0 <= i < |l| :: h(l[i].name) in ByHash(h, l)
    ensures forall i | 0 <= i < |l| :: ByHash(h, l)[h(l[i].name)] == l[i]
  {
    if l != [] {
      var rest := l[1..];
      RestEach(h, l);
      ByHashIs(h, rest);
      ByHashHas(h, rest, h(l[0].name));
      assert forall i | 0 < i < |l| :: l[i] == rest[i - 1];
      assert ByHash(h, l).Keys == ByHash(h, rest).Keys + {h(l[0].name)};
      assert |ByHash(h, l).Keys| == |ByHash(h, rest).Keys| + 1;
    }
  }

  /** One item more, anywhere in the listing, is one binding more. */
  lemma {:induction false} OneMoreItem(h: Hash, a: seq<Item>, it: Item, b: seq<Item>)
    requires OneEach(h, a + [it] + b)
    ensures h(it.name) !in ByHash(h, a + b)
    ensures ByHash(h, a + [it] + b) == ByHash(h, a + b)[h(it.name) := it]
  {
    hide OneEach;
    var l, k := a + [it] + b, a + b;
    ItemApart(h, a, it, b);
    ByHashHas(h, k, h(it.name));
    if a == [] {
      assert l[0] == it && l[1..] == b && k == b;
    } else {
      RestEach(h, l);
      assert l[0] == a[0] == k[0] && l[1..] == a[1..] + [it] + b && k[1..] == a[1..] + b;
      OneMoreItem(h, a[1..], it, b);
      SwapTwo(ByHash(h, k[1..]), h(it.name), it, h(a[0].name), a[0]);
    }
  }

  lemma SwapTwo(m: map<nat, Item>, x: nat, it: Item, y: nat, jt: Item)
    requires x != y
    ensures m[x := it][y := jt] == m[y := jt][x := it]
  {
  }

  lemma ItemApart(h: Hash, a: seq<Item>, it: Item, b: seq<Item>)
    requires OneEach(h, a + [it] + b)
    ensures forall i | 0 <= i < |a + b| :: h((a + b)[i].name) != h(it.name)
  {
    var l, k := a + [it] + b, a + b;
    assert l[|a|] == it;
    forall i | 0 <= i < |k|
      ensures h(k[i].name) != h(it.name)
    {
      assert k[i] == l[if i < |a| then i else i + 1];
    }
  }

  // ------------------------------------------- listing, entries and records

  /** How many live records come before record k of block i. */
  function Rank(recs: seq<seq<Rec>>, i: nat, k: nat): nat
    requires i < |recs| && k < |recs[i]|
  {
    |NameList.AllLive(recs[..i])| + |Live(recs[i][..k])|
  }

  lemma RankIs(recs: seq<seq<Rec>>, i: nat, k: nat)
    requires LiveAt(recs, i, k)
    ensures Rank(recs, i, k) < |NameList.AllLive(recs)| && NameList.AllLive(recs)[Rank(recs, i, k)] == recs[i][k]
  {
    hide Live, NameList.AllLive;
    NameList.LiveOfBlock(recs, i);
    LiveStep(recs[i], k);
  }

  /** The record at place n of the listing. */
  lemma {:induction false} RecordOfRank(recs: seq<seq<Rec>>, n: nat) returns (i: nat, k: nat)
    requires n < |NameList.AllLive(recs)|
    ensures LiveAt(recs, i, k) && Rank(recs, i, k) == n
  {
    hide Live;
    if n < |Live(recs[0])| {
      k := RankInBlock(recs[0], n);
      i := 0;
      assert recs[..0] == [];
    } else {
      i, k := RecordOfRank(recs[1..], n - |Live(recs[0])|);
      assert recs[..i + 1][0] == recs[0] && recs[..i + 1][1..] == recs[1..][..i];
      i := i + 1;
    }
  }

  lemma {:induction false} RankInBlock(rs: seq<Rec>, n: nat) returns (k: nat)
    requires n < |Live(rs)|
    ensures k < |rs| && IsLive(rs[k]) && |Live(rs[..k])| == n
  {
    if IsLive(rs[0]) && n == 0 {
      k := 0;
      assert rs[..0] == [];
    } else {
      k := RankInBlock(rs[1..], if IsLive(rs[0]) then n - 1 else n);
      assert rs[..k + 1] == [rs[0]] + rs[1..][..k];
      LiveCons(rs[0], rs[1..][..k]);
      k := k + 1;
    }
  }

  lemma ShownIs(s: Store)
    ensures Shown(s) == Items(NameList.AllLive(s.names.recs))
  {
    NameList.ListedFromStart(s.names.recs, 0);
  }

  lemma NameIs(r: Rec)
    ensures ItemOf(r).name == Directory.NameOf(r) && ItemOf(r).ino == r.ino
  {
  }

  /** A listing against the tree: each name in it is shown with the inode that search gives for
      it, no hash comes twice, and every bound hash is there. */
  lemma ListingIs(t: nat, h: Hash, s: Store)
    requires Good(t, h, s)
    ensures OneEach(h, Shown(s)) && |Shown(s)| == |BTreeRuns.Contents(s.disk)|
    ensures forall it | it in Shown(s) :: it.ino == Search(h, s, it.name) != 0
    ensures Shows(h, s).Keys == BTreeRuns.Contents(s.disk).Keys
    ensures forall x | x in Shows(h, s) ::
              h(Shows(h, s)[x].name) == x && Shows(h, s)[x].ino == BTreeRuns.Contents(s.disk)[x].ino
  {
    hide BTreeRuns.Valid, BTreeRuns.Contents, Search, Live, NameList.AllLive, NameList.Emitted, ByHash, OffsetOf,
         ItemOf, Directory.NameOf, Rank;
    var m, recs, l := BTreeRuns.Contents(s.disk), s.names.recs, Shown(s);
    ShownIs(s);
    ListedApart(h, m, s.names, l);
    ByHashIs(h, l);
    forall it | it in l
      ensures h(it.name) in m && m[h(it.name)].ino == it.ino && it.ino == Search(h, s, it.name) != 0
    {
      var n :| 0 <= n < |l| && l[n] == it;
      var i, k := RecordOfRank(recs, n);
      RankIs(recs, i, k);
      NameIs(recs[i][k]);
      assert Recorded(h, m, s.names, i, k);
      SearchIs(t, h, s, it.name);
    }
    forall x | x in m
      ensures x in ByHash(h, l)
    {
      assert HasRecord(h, m[x], s.names, x);
      var i: nat, k: nat :| LiveAt(recs, i, k) && m[x] == EntryFor(h, s.names, i, k);
      RankIs(recs, i, k);
      NameIs(recs[i][k]);
      assert h(l[Rank(recs, i, k)].name) == x;
    }
    forall x | x in ByHash(h, l)
      ensures x in m && h(ByHash(h, l)[x].name) == x && ByHash(h, l)[x].ino == m[x].ino
    {
      ByHashHas(h, l, x);
    }
    assert ByHash(h, l).Keys == m.Keys;
    assert |ByHash(h, l)| == |ByHash(h, l).Keys| && |m| == |m.Keys|;
  }

  lemma ListedApart(h: Hash, m: map<nat, Entry>, nm: Names, l: seq<Item>)
    requires Addressed(h, m, nm) && l == Items(NameList.AllLive(nm.recs))
    ensures OneEach(h, l)
  {
    hide Live, NameList.AllLive, OffsetOf, ItemOf, Directory.NameOf, Addressed, Rank;
    var recs := nm.recs;
    forall a, b | 0 <= a < b < |l|
      ensures h(l[a].name) != h(l[b].name)
    {
      var i, k := RecordOfRank(recs, a);
      var j, n := RecordOfRank(recs, b);
      RankIs(recs, i, k);
      RankIs(recs, j, n);
      NameIs(recs[i][k]);
      NameIs(recs[j][n]);
      if h(l[a].name) == h(l[b].name) {
        OneRecordPerHash(h, m, nm, i, k, j, n);
      }
    }
  }

  // -------------------------------------------------------------- operations

  /** A stored name: the listing has exactly that item more. */
  lemma InsertShown(recs: seq<seq<Rec>>, i: nat, name: seq<nat>, ino: nat) returns (a: seq<Item>, b: seq<Item>)
    requires i <= |recs| && ino != 0
    ensures NameList.Emitted(recs, 0, 0) == a + b
    ensures NameList.Emitted(NameList.Placed(recs, i, RecordOf(name, ino)), 0, 0) == a + [Item(ino, name)] + b
  {
    hide Live, NameList.AllLive, NameList.Emitted;
    var r, qs := RecordOf(name, ino), NameList.Placed(recs, i, RecordOf(name, ino));
    NameList.ListedFromStart(recs, 0);
    NameList.ListedFromStart(qs, 0);
    assert r.name[..|r.name| - 1] == name;
    LiveOne(r);
    if i < |recs| {
      NameList.LiveOfBlock(recs, i);
      NameList.LiveOfBlock(qs, i);
      LiveAppend(recs[i], [r]);
      assert qs[..i] == recs[..i] && qs[i + 1..] == recs[i + 1..];
      a, b := Items(NameList.AllLive(recs[..i]) + Live(recs[i])), Items(NameList.AllLive(recs[i + 1..]));
    } else {
      NameList.LiveOfBlock(qs, i);
      assert qs[..i] == recs && qs[i + 1..] == [];
      NoneListed();
      a, b := Items(NameList.AllLive(recs)), [];
    }
  }

  lemma NoneListed()
    ensures NameList.AllLive([]) == []
  {
  }

  /** A deleted record: the listing has exactly its item less. */
  lemma EraseShown(recs: seq<seq<Rec>>, i: nat, k: nat) returns (a: seq<Item>, b: seq<Item>)
    requires LiveAt(recs, i, k)
    ensures NameList.Emitted(recs, 0, 0) == a + [Item(recs[i][k].ino, Directory.NameOf(recs[i][k]))] + b
    ensures NameList.Emitted(recs[i := Tomb(recs[i], k)], 0, 0) == a + b
  {
    hide Live, NameList.AllLive, NameList.Emitted;
    var qs := recs[i := Tomb(recs[i], k)];
    NameList.ListedFromStart(recs, 0);
    NameList.ListedFromStart(qs, 0);
    NameList.LiveOfBlock(recs, i);
    NameList.LiveOfBlock(qs, i);
    LiveStep(recs[i], k);
    LiveStep(qs[i], k);
    assert qs[..i] == recs[..i] && qs[i + 1..] == recs[i + 1..];
    assert qs[i][..k] == recs[i][..k] && qs[i][k + 1..] == recs[i][k + 1..];
    a := Items(NameList.AllLive(recs[..i]) + Live(recs[i][..k]));
    b := Items(Live(recs[i][k + 1..]) + NameList.AllLive(recs[i + 1..]));
    NameIs(recs[i][k]);
  }

  lemma AddShows(t: nat, h: Hash, s: Store, name: seq<nat>, ino: nat, spare: nat)
    requires Good(t, h, s) && IsIno(ino) && spare !in s.names.bnos
    ensures h(name) in Shows(h, s) ==> Add(t, h, s, name, ino, spare) == s
    ensures h(name) !in Shows(h, s) ==>
              Shows(h, Add(t, h, s, name, ino, spare)) == Shows(h, s)[h(name) := Item(ino, name)]
  {
    hide BTreeRuns.Valid, BTreeRuns.Contents, Lookup, NameList.Emitted, ByHash, NameList.FirstWithRoom, Addressed,
         BTreeRuns.Insert;
    ListingIs(t, h, s);
    FoundInMap(t, h, s, name);
    if h(name) !in Shows(h, s) {
      var s' := Add(t, h, s, name, ino, spare);
      AddGood(t, h, s, name, ino, spare);
      ListingIs(t, h, s');
      AddTaken(t, h, s, name, ino, spare);
      var a, b := InsertShown(s.names.recs, Slot(s.names, |name| + 1), name, ino);
      OneMoreItem(h, a, Item(ino, name), b);
    }
  }

  lemma DeleteShows(t: nat, h: Hash, s: Store, name: seq<nat>)
    requires Good(t, h, s)
    ensures Shows(h, Delete(t, h, s, name)) == Shows(h, s) - {h(name)}
  {
    hide BTreeRuns.Valid, BTreeRuns.Contents, Lookup, NameList.Emitted, ByHash, Addressed, BTreeRuns.DeleteEntry,
         Erased, OffsetOf;
    ListingIs(t, h, s);
    FoundInMap(t, h, s, name);
    var m := BTreeRuns.Contents(s.disk);
    if h(name) in m {
      var e := m[h(name)];
      var i, k := ErasedRecord(h, m, s.names, h(name));
      var a, b := EraseShown(s.names.recs, i, k);
      OneMoreItem(h, a, Item(s.names.recs[i][k].ino, Directory.NameOf(s.names.recs[i][k])), b);
      assert Shows(h, s) - {h(name)} == ByHash(h, a + b);
    } else {
      assert Shows(h, s) - {h(name)} == Shows(h, s);
    }
  }

  // ---------------------------------------------------------------- requests

  /** What the file system asks of a directory. */
  datatype Request =
    | Create(name: seq<nat>, ino: nat)
    | Unlink(name: seq<nat>)
    | Move(oldName: seq<nat>, newName: seq<nat>)
    | Locate(name: seq<nat>)

  /** What a request does to the finite map, and what it answers; names are looked up before they
      are deleted or renamed. */
  function Serving(h: Hash, m: map<nat, Item>, r: Request): (map<nat, Item>, Answer) {
    match r
    case Create(name, ino) =>
      if h(name) in m then (m, Added(false)) else (m[h(name) := Item(ino, name)], Added(true))
    case Unlink(name) => if h(name) in m then (m - {h(name)}, Deleted) else (m, Found(0))
    case Move(o, n) =>
      if h(o) !in m then (m, Found(0))
      else if h(n) in m then (m, RenameWas(Exists))
      else if |m| % U32 >= ENTRIES_PER_DIR then (m, RenameWas(TooMany))
      else (m[h(n) := Item(m[h(o)].ino, n)] - {h(o)}, RenameWas(Renamed))
    case Locate(name) => (m, Found(if h(name) in m then m[h(name)].ino else 0))
  }

  function ServingAll(h: Hash, m: map<nat, Item>, rs: seq<Request>): (map<nat, Item>, seq<Answer>)
    decreases |rs|
  {
    if rs == [] then (m, [])
    else
      var (m1, a) := Serving(h, m, rs[0]);
      var (m2, rest) := ServingAll(h, m1, rs[1..]);
      (m2, [a] + rest)
  }

  function Asked(op: DirOp): Request {
    match op
    case AddName(name, ino, _) => Create(name, ino)
    case DeleteName(name) => Unlink(name)
    case RenameName(o, n, _) => Move(o, n)
    case FindName(name) => Locate(name)
  }

  function AskedAll(ops: seq<DirOp>): seq<Request> { if ops == [] then [] else [Asked(ops[0])] + AskedAll(ops[1..]) }

  /** Every operation does to the listing what the request does to the map, and answers alike. */
  lemma StepServes(t: nat, h: Hash, s: Store, op: DirOp)
    requires Good(t, h, s) && Issued(t, h, s, op)
    ensures (Shows(h, Step(t, h, s, op).0), Step(t, h, s, op).1) == Serving(h, Shows(h, s), Asked(op))
  {
    hide Good, Add, Delete, Shows, BTreeRuns.Contents, Lookup;
    ListingIs(t, h, s);
    match op
    case AddName(name, ino, spare) =>
      AddShows(t, h, s, name, ino, spare);
      FoundInMap(t, h, s, name);
    case DeleteName(name) =>
      DeleteShows(t, h, s, name);
      SearchIs(t, h, s, name);
    case RenameName(o, n, spare) =>
      SearchIs(t, h, s, o);
      RenameCheckIs(t, h, s, n);
      assert |Shows(h, s)| == |Shows(h, s).Keys| && |BTreeRuns.Contents(s.disk)| == |BTreeRuns.Contents(s.disk).Keys|;
      if RenameCheck(h, s, n) == Renamed {
        AddShows(t, h, s, n, Search(h, s, o), spare);
        AddGood(t, h, s, n, Search(h, s, o), spare);
        DeleteShows(t, h, Add(t, h, s, n, Search(h, s, o), spare), o);
      }
    case FindName(name) => SearchIs(t, h, s, name);
  }

  /** Over every run: the answers, and what the directory shows at the end. */
  lemma {:induction false} RunServes(t: nat, h: Hash, s: Store, ops: seq<DirOp>)
    requires Good(t, h, s) && IssuedAll(t, h, s, ops)
    ensures (Shows(h, Run(t, h, s, ops).0), Run(t, h, s, ops).1) == ServingAll(h, Shows(h, s), AskedAll(ops))
    decreases |ops|
  {
    hide Good, Step, Shows, Serving, Issued, Asked;
    if ops != [] {
      StepGood(t, h, s, ops[0]);
      StepServes(t, h, s, ops[0]);
      RunServes(t, h, Step(t, h, s, ops[0]).0, ops[1..]);
      assert AskedAll(ops)[1..] == AskedAll(ops[1..]);
    }
  }
}
