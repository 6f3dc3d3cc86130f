/** A directory as its operations leave it (dir.c): the B-tree of entries and the name list,
    each entry pointing at its name record. The hash function is a parameter. */
module Directory {
  import opened Entries
  import opened BTree
  import opened BTreeDelete
  import BTreeRuns
  import opened Bitmap
  import opened NameRecords
  import NameList

  type Hash = seq<nat> -> nat

  /** bnos: the name blocks in chain order; recs: what each of them holds. */
  datatype Names = Names(bnos: seq<nat>, recs: seq<seq<Rec>>)

  datatype Store = Store(disk: BTreeRuns.Dir, names: Names)

  /** Inode numbers are handed around as int in places, and 0 marks a tombstone. */
  predicate IsIno(ino: nat) { 0 < ino < 0x8000_0000 }

  // ------------------------------------------------- entries and name records

  ghost predicate LiveAt(recs: seq<seq<Rec>>, i: nat, k: nat) {
    i < |recs| && k < |recs[i]| && IsLive(recs[i][k])
  }

  function NameOf(r: Rec): seq<nat> { if r.name == [] then [] else r.name[..|r.name| - 1] }

  /** The entry that addresses record k of block i. */
  function EntryFor(h: Hash, nm: Names, i: nat, k: nat): Entry
    requires |nm.bnos| == |nm.recs| && i < |nm.recs| && k < |nm.recs[i]|
  {
    Entry(nm.recs[i][k].ino, h(NameOf(nm.recs[i][k])), nm.bnos[i], OffsetOf(nm.recs[i], k))
  }

  /** Entries and live records correspond one to one: every record is addressed by the
      entry of its name's hash, and every entry addresses a record. */
  ghost predicate Addressed(h: Hash, m: map<nat, Entry>, nm: Names) {
    && |nm.bnos| == |nm.recs| >= 1 && NameList.NoRepeats(nm.bnos)
    && (forall i: nat, k: nat | LiveAt(nm.recs, i, k) :: Recorded(h, m, nm, i, k))
    && (forall x | x in m :: HasRecord(h, m[x], nm, x))
  }

  ghost predicate Recorded(h: Hash, m: map<nat, Entry>, nm: Names, i: nat, k: nat)
    requires |nm.bnos| == |nm.recs|
  {
    LiveAt(nm.recs, i, k) && IsIno(nm.recs[i][k].ino)
    && var e := EntryFor(h, nm, i, k); e.hash in m && m[e.hash] == e
  }

  ghost predicate HasRecord(h: Hash, e: Entry, nm: Names, x: nat)
    requires |nm.bnos| == |nm.recs|
  {
    e.hash == x && exists i: nat, k: nat :: LiveAt(nm.recs, i, k) && e == EntryFor(h, nm, i, k)
  }

  /** No two live records share a name's hash, so the correspondence is a bijection. */
  lemma OneRecordPerHash(h: Hash, m: map<nat, Entry>, nm: Names, i: nat, k: nat, j: nat, l: nat)
    requires Addressed(h, m, nm) && LiveAt(nm.recs, i, k) && LiveAt(nm.recs, j, l)
    requires h(NameOf(nm.recs[i][k])) == h(NameOf(nm.recs[j][l]))
    ensures i == j && k == l
  {
    hide OffsetOf;
    assert Recorded(h, m, nm, i, k) && Recorded(h, m, nm, j, l);
    if k < l { OffsetsGrow(nm.recs[i], k, l); } else if l < k { OffsetsGrow(nm.recs[i], l, k); }
  }

  /** Position of a block in the chain, of a record in its block. */
  function BlockIndex(bnos: seq<nat>, b: nat): (i: nat)
    ensures i <= |bnos| && (i < |bnos| ==> bnos[i] == b)
  {
    if bnos == [] || bnos[0] == b then 0 else 1 + BlockIndex(bnos[1..], b)
  }

  function RecordIndex(rs: seq<Rec>, o: nat, n: nat): (k: nat)
    requires n <= |rs|
    ensures k <= n && (k < n ==> OffsetOf(rs, k) == o)
  {
    if n == 0 then 0
    else
      var k := RecordIndex(rs, o, n - 1);
      if k < n - 1 || OffsetOf(rs, n - 1) == o then k else n
  }

  lemma {:induction false} BlockIndexIs(bnos: seq<nat>, i: nat)
    requires i < |bnos| && NameList.NoRepeats(bnos)
    ensures BlockIndex(bnos, bnos[i]) == i
  {
    if i > 0 {
      BlockIndexIs(bnos[1..], i - 1);
    }
  }

  lemma RecordIndexIs(rs: seq<Rec>, k: nat, n: nat)
    requires k < n <= |rs|
    ensures RecordIndex(rs, OffsetOf(rs, k), n) == k
  {
    hide OffsetOf;
    var j := RecordIndex(rs, OffsetOf(rs, k), n);
    RecordIndexBefore(rs, OffsetOf(rs, k), n, k);
    if j < k { OffsetsGrow(rs, j, k); }
  }

  lemma RecordIndexBefore(rs: seq<Rec>, o: nat, n: nat, k: nat)
    requires k < n <= |rs| && OffsetOf(rs, k) == o
    ensures RecordIndex(rs, o, n) <= k
  {
    hide OffsetOf;
    if k < n - 1 { RecordIndexBefore(rs, o, n - 1, k); }
  }

  // -------------------------------------------------------------- operations

  /** Where basicbtfs_nametree_insert_name puts a record. */
  function Slot(nm: Names, len: nat): nat { NameList.FirstWithRoom(nm.recs, len) }

  function PlacedNames(nm: Names, r: Rec, spare: nat): Names
    requires |nm.bnos| == |nm.recs|
  {
    var i := Slot(nm, |r.name|);
    Names(NameList.PlacedBlocks(nm.bnos, i, spare), NameList.Placed(nm.recs, i, r))
  }

  function RecordOf(name: seq<nat>, ino: nat): Rec { Rec(ino, name + [0]) }

  /** The entry add_entry inserts. */
  function NewEntry(h: Hash, nm: Names, name: seq<nat>, ino: nat, spare: nat): Entry
    requires |nm.bnos| == |nm.recs|
  {
    var i := Slot(nm, |name| + 1);
    Entry(ino, h(name), if i < |nm.bnos| then nm.bnos[i] else spare,
          if i < |nm.recs| then OffsetOf(nm.recs[i], |nm.recs[i]|) else FIRST_RECORD)
  }

  ghost predicate Good(t: nat, h: Hash, s: Store) {
    BTreeRuns.Valid(t, s.disk) && Addressed(h, BTreeRuns.Contents(s.disk), s.names)
  }

  /** basicbtfs_add_entry without the cache; spare is the block a full list would get. */
  ghost function Add(t: nat, h: Hash, s: Store, name: seq<nat>, ino: nat, spare: nat): Store
    requires Good(t, h, s)
  {
    if Lookup(s.disk.tree, h(name)).Some? then s
    else Store(BTreeRuns.Insert(t, s.disk, NewEntry(h, s.names, name, ino, spare)),
               PlacedNames(s.names, RecordOf(name, ino), spare))
  }

  /** basicbtfs_delete_entry without the cache, for a name that is there. */
  ghost function Delete(t: nat, h: Hash, s: Store, name: seq<nat>): Store
    requires Good(t, h, s)
  {
    match Lookup(s.disk.tree, h(name))
    case None => s
    case Some(e) => Store(BTreeRuns.DeleteEntry(t, s.disk, h(name)), Erased(s.names, e.nameBno, e.blockIndex))
  }

  /** The record at an address becomes a tombstone. */
  function Erased(nm: Names, bno: nat, index: nat): Names
    requires |nm.bnos| == |nm.recs|
  {
    var i := BlockIndex(nm.bnos, bno);
    if i == |nm.recs| then nm
    else
      var k := RecordIndex(nm.recs[i], index, |nm.recs[i]|);
      if k == |nm.recs[i]| then nm else nm.(recs := nm.recs[i := nm.recs[i][k := nm.recs[i][k].(ino := 0)]])
  }

  /** basicbtfs_search_entry without the cache: an inode number, or 0. */
  ghost function Search(h: Hash, s: Store, name: seq<nat>): nat {
    match Lookup(s.disk.tree, h(name)) case None => 0 case Some(e) => e.ino
  }

  /** BASICBTFS_ENTRIES_PER_DIR */
  const ENTRIES_PER_DIR := 256 * 1023

  /** Why a rename is refused, or that it is not. */
  datatype RenameResult = Renamed | Exists | TooMany

  ghost function RenameCheck(h: Hash, s: Store, newName: seq<nat>): RenameResult {
    if Lookup(s.disk.tree, h(newName)).Some? then Exists
    else if s.disk.nrOfFiles % U32 >= ENTRIES_PER_DIR then TooMany
    else Renamed
  }

  /** basicbtfs_update_entry within one directory: the new name first, then the old one. */
  ghost function Rename(t: nat, h: Hash, s: Store, oldName: seq<nat>, newName: seq<nat>, ino: nat, spare: nat): Store
    requires Good(t, h, s) && IsIno(ino) && spare !in s.names.bnos
  {
    if RenameCheck(h, s, newName) != Renamed then s
    else
      AddGood(t, h, s, newName, ino, spare);
      Delete(t, h, Add(t, h, s, newName, ino, spare), oldName)
  }

  // ------------------------------------------------------ the bijection is kept

  lemma AddAddressed(h: Hash, m: map<nat, Entry>, nm: Names, name: seq<nat>, ino: nat, spare: nat)
    requires Addressed(h, m, nm) && h(name) !in m && IsIno(ino) && spare !in nm.bnos
    ensures Addressed(h, m[h(name) := NewEntry(h, nm, name, ino, spare)], PlacedNames(nm, RecordOf(name, ino), spare))
  {
    hide OffsetOf, NameList.FirstWithRoom;
    var r, e := RecordOf(name, ino), NewEntry(h, nm, name, ino, spare);
    var nm', m' := PlacedNames(nm, r, spare), m[h(name) := e];
    var i0 := Slot(nm, |r.name|);
    var k0 := if i0 < |nm.recs| then |nm.recs[i0]| else 0;
    assert NameOf(r) == name;
    assert nm'.recs[i0][k0] == r;
    NewOffset(nm, r, spare);
    assert EntryFor(h, nm', i0, k0) == e;
    forall i: nat, k: nat | LiveAt(nm'.recs, i, k)
      ensures Recorded(h, m', nm', i, k)
    {
      if !(i == i0 && k == k0) {
        assert LiveAt(nm.recs, i, k);
        assert Recorded(h, m, nm, i, k);
        OldOffset(nm, r, spare, i, k);
      }
    }
    forall x | x in m'
      ensures HasRecord(h, m'[x], nm', x)
    {
      if x == h(name) {
        assert LiveAt(nm'.recs, i0, k0);
      } else {
        assert HasRecord(h, m[x], nm, x);
        var i: nat, k: nat :| LiveAt(nm.recs, i, k) && m[x] == EntryFor(h, nm, i, k);
        OldOffset(nm, r, spare, i, k);
        assert LiveAt(nm'.recs, i, k);
      }
    }
  }

  lemma NewOffset(nm: Names, r: Rec, spare: nat)
    requires |nm.bnos| == |nm.recs|
    ensures var i0, nm' := Slot(nm, |r.name|), PlacedNames(nm, r, spare);
            OffsetOf(nm'.recs[i0], if i0 < |nm.recs| then |nm.recs[i0]| else 0)
            == if i0 < |nm.recs| then OffsetOf(nm.recs[i0], |nm.recs[i0]|) else FIRST_RECORD
  {
    hide NameList.FirstWithRoom;
    var i0 := Slot(nm, |r.name|);
    if i0 < |nm.recs| {
      var rs := nm.recs[i0];
      assert (rs + [r])[..|rs|] == rs[..|rs|];
    } else {
      assert [r][..0] == [];
    }
  }

  lemma OldOffset(nm: Names, r: Rec, spare: nat, i: nat, k: nat)
    requires |nm.bnos| == |nm.recs| && i < |nm.recs| && k < |nm.recs[i]|
    ensures var nm' := PlacedNames(nm, r, spare);
            && i < |nm'.recs| == |nm'.bnos| && nm'.bnos[i] == nm.bnos[i] && k < |nm'.recs[i]|
            && nm'.recs[i][k] == nm.recs[i][k]
            && OffsetOf(nm'.recs[i], k) == OffsetOf(nm.recs[i], k)
  {
    hide NameList.FirstWithRoom;
    assert (nm.recs[i] + [r])[..k] == nm.recs[i][..k];
  }

  /** The record that deletion turns into a tombstone. */
  lemma ErasedRecord(h: Hash, m: map<nat, Entry>, nm: Names, x: nat) returns (i: nat, k: nat)
    requires Addressed(h, m, nm) && x in m
    ensures |nm.bnos| == |nm.recs| && LiveAt(nm.recs, i, k) && h(NameOf(nm.recs[i][k])) == x
    ensures Erased(nm, m[x].nameBno, m[x].blockIndex)
            == nm.(recs := nm.recs[i := nm.recs[i][k := nm.recs[i][k].(ino := 0)]])
  {
    hide OffsetOf;
    assert HasRecord(h, m[x], nm, x);
    i, k :| LiveAt(nm.recs, i, k) && m[x] == EntryFor(h, nm, i, k);
    BlockIndexIs(nm.bnos, i);
    RecordIndexIs(nm.recs[i], k, |nm.recs[i]|);
  }

  lemma EraseAddressed(h: Hash, m: map<nat, Entry>, nm: Names, x: nat)
    requires Addressed(h, m, nm) && x in m
    ensures Addressed(h, m - {x}, Erased(nm, m[x].nameBno, m[x].blockIndex))
  {
    hide OffsetOf, Erased, NameOf;
    var i0, k0 := ErasedRecord(h, m, nm, x);
    var nm' := Erased(nm, m[x].nameBno, m[x].blockIndex);
    ErasedOffsets(nm.recs[i0], k0);
    ErasedName(nm.recs[i0][k0]);
    forall i: nat, k: nat | LiveAt(nm'.recs, i, k)
      ensures Recorded(h, m - {x}, nm', i, k)
    {
      assert LiveAt(nm.recs, i, k) && Recorded(h, m, nm, i, k);
      if h(NameOf(nm.recs[i][k])) == x {
        OneRecordPerHash(h, m, nm, i, k, i0, k0);
      }
    }
    forall y | y in m - {x}
      ensures HasRecord(h, m[y], nm', y)
    {
      assert HasRecord(h, m[y], nm, y);
      var i: nat, k: nat :| LiveAt(nm.recs, i, k) && m[y] == EntryFor(h, nm, i, k);
      assert LiveAt(nm'.recs, i, k);
    }
  }

  lemma ErasedName(r: Rec)
    ensures NameOf(r.(ino := 0)) == NameOf(r)
  {
  }

  lemma ErasedOffsets(rs: seq<Rec>, k: nat)
    requires k < |rs|
    ensures forall j | 0 <= j <= |rs| :: OffsetOf(rs[k := rs[k].(ino := 0)], j) == OffsetOf(rs, j)
  {
    forall j | 0 <= j <= |rs|
      ensures OffsetOf(rs[k := rs[k].(ino := 0)], j) == OffsetOf(rs, j)
    {
      OffsetTomb(rs, k, j);
    }
  }

  lemma SameLengths(h: Hash, m: map<nat, Entry>, nm: Names)
    requires Addressed(h, m, nm)
    ensures |nm.bnos| == |nm.recs| >= 1
  {
  }

  /** Adding a name: the directory gains exactly that binding and stays in order. */
  lemma AddGood(t: nat, h: Hash, s: Store, name: seq<nat>, ino: nat, spare: nat)
    requires Good(t, h, s) && IsIno(ino) && spare !in s.names.bnos
    ensures Good(t, h, Add(t, h, s, name, ino, spare))
    ensures var m := BTreeRuns.Contents(s.disk);
            BTreeRuns.Contents(Add(t, h, s, name, ino, spare).disk)
            == if h(name) in m then m else m[h(name) := NewEntry(h, s.names, name, ino, spare)]
  {
    hide BTreeRuns.Valid, BTreeRuns.Contents, BTreeRuns.Insert, Addressed, Lookup, PlacedNames;
    SameLengths(h, BTreeRuns.Contents(s.disk), s.names);
    BTreeRuns.LookupContents(t, s.disk, h(name));
    if h(name) !in BTreeRuns.Contents(s.disk) {
      BTreeRuns.InsertCorrect(t, s.disk, NewEntry(h, s.names, name, ino, spare));
      AddAddressed(h, BTreeRuns.Contents(s.disk), s.names, name, ino, spare);
    }
  }

  lemma DeleteGood(t: nat, h: Hash, s: Store, name: seq<nat>)
    requires Good(t, h, s)
    ensures Good(t, h, Delete(t, h, s, name))
    ensures BTreeRuns.Contents(Delete(t, h, s, name).disk) == BTreeRuns.Contents(s.disk) - {h(name)}
  {
    hide BTreeRuns.Valid, BTreeRuns.Contents, BTreeRuns.DeleteEntry, Addressed, Lookup, Erased;
    SameLengths(h, BTreeRuns.Contents(s.disk), s.names);
    BTreeRuns.LookupContents(t, s.disk, h(name));
    if h(name) in BTreeRuns.Contents(s.disk) {
      BTreeRuns.DeleteCorrect(t, s.disk, h(name));
      EraseAddressed(h, BTreeRuns.Contents(s.disk), s.names, h(name));
    } else {
      assert BTreeRuns.Contents(s.disk) - {h(name)} == BTreeRuns.Contents(s.disk);
    }
  }

  /** What search answers, read off the map. */
  lemma SearchIs(t: nat, h: Hash, s: Store, name: seq<nat>)
    requires Good(t, h, s)
    ensures Search(h, s, name) == (var m := BTreeRuns.Contents(s.disk); if h(name) in m then m[h(name)].ino else 0)
    ensures Search(h, s, name) != 0 <==> h(name) in BTreeRuns.Contents(s.disk)
  {
    hide BTreeRuns.Valid, BTreeRuns.Contents, Lookup, OffsetOf;
    BTreeRuns.LookupContents(t, s.disk, h(name));
    var m := BTreeRuns.Contents(s.disk);
    if h(name) in m {
      assert HasRecord(h, m[h(name)], s.names, h(name));
      var i: nat, k: nat :| LiveAt(s.names.recs, i, k) && m[h(name)] == EntryFor(h, s.names, i, k);
      assert Recorded(h, m, s.names, i, k);
    }
  }

  /** When a rename is let through: the new name's hash is free, and there are fewer entries than
      a directory may have (as far as the 32-bit counter can tell). */
  ghost predicate MayRename(m: map<nat, Entry>, x: nat) { x !in m && |m| % U32 < ENTRIES_PER_DIR }

  lemma RenameCheckIs(t: nat, h: Hash, s: Store, newName: seq<nat>)
    requires Good(t, h, s)
    ensures var m := BTreeRuns.Contents(s.disk);
            && (RenameCheck(h, s, newName) == Exists <==> h(newName) in m)
            && (RenameCheck(h, s, newName) == Renamed <==> MayRename(m, h(newName)))
  {
    hide Addressed, Lookup, Flat, Shape, Sorted;
    BTreeRuns.LookupContents(t, s.disk, h(newName));
    DictSize(Flat(s.disk.tree));
  }

  /** A rename that is let through binds the new name to the old inode and unbinds the old
      name; every other name answers as before. One that is not changes nothing. */
  lemma RenameGood(t: nat, h: Hash, s: Store, oldName: seq<nat>, newName: seq<nat>, spare: nat, name: seq<nat>)
    requires Good(t, h, s) && spare !in s.names.bnos && IsIno(Search(h, s, oldName))
    ensures var r := Rename(t, h, s, oldName, newName, Search(h, s, oldName), spare);
            && Good(t, h, r)
            && Search(h, r, name) == (if !MayRename(BTreeRuns.Contents(s.disk), h(newName)) then Search(h, s, name)
                                      else if h(name) == h(newName) then Search(h, s, oldName)
                                      else if h(name) == h(oldName) then 0 else Search(h, s, name))
  {
    hide BTreeRuns.Valid, BTreeRuns.Contents, Addressed, Add, Delete, Lookup, Search;
    var ino := Search(h, s, oldName);
    RenameCheckIs(t, h, s, newName);
    if RenameCheck(h, s, newName) == Renamed {
      AddGood(t, h, s, newName, ino, spare);
      var a := Add(t, h, s, newName, ino, spare);
      DeleteGood(t, h, a, oldName);
      SearchIs(t, h, s, name);
      SearchIs(t, h, s, oldName);
      SearchIs(t, h, Delete(t, h, a, oldName), name);
    }
  }
}
