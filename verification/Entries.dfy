/** Directory entries of the B-tree (basicbtfs_entry) and the sorted sequence of
    entries that a whole tree stands for. Every tree operation is specified by its
    effect on that sequence. */
module Entries {

  /** One key of a tree node. All four fields are uint32 values; the tree code only
      copies and compares them. */
  datatype Entry = Entry(ino: nat, hash: nat, nameBno: nat, blockIndex: nat)

  /** A zeroed slot. */
  const ZERO_ENTRY := Entry(0, 0, 0, 0)

  datatype Option<+T> = None | Some(value: T)

  ghost predicate Sorted(s: seq<Entry>) {
    forall i, j | 0 <= i < j < |s| :: s[i].hash < s[j].hash
  }

  /** Hash h is not the key of any entry of s. */
  ghost predicate Absent(s: seq<Entry>, h: nat) {
    forall i | 0 <= i < |s| :: s[i].hash != h
  }

  /** The entry of s filed under h: the linear reference for every search. */
  function Find(s: seq<Entry>, h: nat): Option<Entry> {
    if s == [] then None else if s[0].hash == h then Some(s[0]) else Find(s[1..], h)
  }

  function SortedInsert(s: seq<Entry>, e: Entry): seq<Entry> {
    if s == [] then [e]
    else if s[0].hash > e.hash then [e] + s
    else [s[0]] + SortedInsert(s[1..], e)
  }

  function Remove(s: seq<Entry>, h: nat): seq<Entry> {
    if s == [] then [] else if s[0].hash == h then s[1..] else [s[0]] + Remove(s[1..], h)
  }

  /** The finite map a sorted sequence stands for. */
  function Dict(s: seq<Entry>): map<nat, Entry> {
    if s == [] then map[] else Dict(s[1..])[s[0].hash := s[0]]
  }

  lemma ConsHead(x: Entry, s: seq<Entry>)
    ensures ([x] + s)[0] == x && ([x] + s)[1..] == s && [x] + s != []
  {
  }

  lemma InsertCons(x: Entry, s: seq<Entry>, e: Entry)
    ensures SortedInsert([x] + s, e) == if x.hash > e.hash then [e] + ([x] + s) else [x] + SortedInsert(s, e)
  {
    ConsHead(x, s);
  }

  lemma RemoveCons(x: Entry, s: seq<Entry>, h: nat)
    ensures Remove([x] + s, h) == if x.hash == h then s else [x] + Remove(s, h)
  {
    ConsHead(x, s);
  }

  /** Entries not above e stay in front, */
  lemma {:induction false} InsertPrefix(l: seq<Entry>, s: seq<Entry>, e: Entry)
    requires forall i | 0 <= i < |l| :: l[i].hash <= e.hash
    ensures SortedInsert(l + s, e) == l + SortedInsert(s, e)
  {
    hide SortedInsert;
    if l == [] {
      assert l + s == s && l + SortedInsert(s, e) == SortedInsert(s, e);
    } else {
      assert l + s == [l[0]] + (l[1..] + s);
      InsertCons(l[0], l[1..] + s, e);
      InsertPrefix(l[1..], s, e);
      assert [l[0]] + (l[1..] + SortedInsert(s, e)) == l + SortedInsert(s, e);
    }
  }

  /** those above it behind. */
  lemma {:induction false} InsertSuffix(m: seq<Entry>, r: seq<Entry>, e: Entry)
    requires r == [] || r[0].hash > e.hash
    ensures SortedInsert(m + r, e) == SortedInsert(m, e) + r
  {
    if m == [] {
      assert m + r == r && SortedInsert([], e) + r == [e] + r;
    } else {
      InsertSuffix(m[1..], r, e);
      InsertStep(m[0], m[1..], r, e);
      assert [m[0]] + m[1..] == m;
    }
  }

  lemma InsertStep(x: Entry, m: seq<Entry>, r: seq<Entry>, e: Entry)
    requires SortedInsert(m + r, e) == SortedInsert(m, e) + r
    ensures SortedInsert([x] + m + r, e) == SortedInsert([x] + m, e) + r
  {
    hide SortedInsert;
    assert [x] + m + r == [x] + (m + r);
    InsertCons(x, m + r, e);
    InsertCons(x, m, e);
    if x.hash > e.hash {
      Regroup([e], [x], m, r);
    } else {
      assert [x] + SortedInsert(m, e) + r == [x] + (SortedInsert(m, e) + r);
    }
  }

  lemma Regroup(a: seq<Entry>, b: seq<Entry>, c: seq<Entry>, d: seq<Entry>)
    ensures a + (b + (c + d)) == (a + (b + c)) + d
  {
    assert b + (c + d) == (b + c) + d;
  }

  lemma InsertMiddle(l: seq<Entry>, m: seq<Entry>, r: seq<Entry>, e: Entry)
    requires forall i | 0 <= i < |l| :: l[i].hash <= e.hash
    requires r == [] || r[0].hash > e.hash
    ensures SortedInsert(l + m + r, e) == l + SortedInsert(m, e) + r
  {
    hide SortedInsert;
    assert l + m + r == l + (m + r);
    InsertPrefix(l, m + r, e);
    InsertSuffix(m, r, e);
    assert l + (SortedInsert(m, e) + r) == l + SortedInsert(m, e) + r;
  }

  lemma {:induction false} RemoveAbsent(s: seq<Entry>, h: nat)
    requires Absent(s, h)
    ensures Remove(s, h) == s
  {
    if s != [] {
      RemoveAbsent(s[1..], h);
    }
  }

  lemma {:induction false} RemovePrefix(l: seq<Entry>, s: seq<Entry>, h: nat)
    requires Absent(l, h)
    ensures Remove(l + s, h) == l + Remove(s, h)
  {
    hide Remove;
    if l == [] {
      assert l + s == s && l + Remove(s, h) == Remove(s, h);
    } else {
      assert l + s == [l[0]] + (l[1..] + s);
      RemoveCons(l[0], l[1..] + s, h);
      RemovePrefix(l[1..], s, h);
      assert [l[0]] + (l[1..] + Remove(s, h)) == l + Remove(s, h);
    }
  }

  lemma {:induction false} RemoveSuffix(m: seq<Entry>, r: seq<Entry>, h: nat)
    requires Absent(r, h)
    ensures Remove(m + r, h) == Remove(m, h) + r
  {
    if m == [] {
      assert m + r == r && Remove([], h) + r == r;
      RemoveAbsent(r, h);
    } else {
      RemoveSuffix(m[1..], r, h);
      RemoveStep(m[0], m[1..], r, h);
      assert [m[0]] + m[1..] == m;
    }
  }

  lemma RemoveStep(x: Entry, m: seq<Entry>, r: seq<Entry>, h: nat)
    requires Remove(m + r, h) == Remove(m, h) + r
    ensures Remove([x] + m + r, h) == Remove([x] + m, h) + r
  {
    hide Remove;
    assert [x] + m + r == [x] + (m + r);
    RemoveCons(x, m + r, h);
    RemoveCons(x, m, h);
    assert [x] + Remove(m, h) + r == [x] + (Remove(m, h) + r);
  }

  lemma RemoveMiddle(l: seq<Entry>, m: seq<Entry>, r: seq<Entry>, h: nat)
    requires Absent(l, h) && Absent(r, h)
    ensures Remove(l + m + r, h) == l + Remove(m, h) + r
  {
    hide Remove;
    assert l + m + r == l + (m + r);
    RemovePrefix(l, m + r, h);
    RemoveSuffix(m, r, h);
    assert l + (Remove(m, h) + r) == l + Remove(m, h) + r;
  }

  /** The one entry with hash h, from between two runs. */
  lemma RemoveBetween(l: seq<Entry>, x: Entry, r: seq<Entry>)
    requires Absent(l, x.hash) && Absent(r, x.hash)
    ensures Remove(l + [x] + r, x.hash) == l + r
  {
    RemoveMiddle(l, [x], r, x.hash);
    RemoveCons(x, [], x.hash);
    assert [x] + [] == [x] && l + [] + r == l + r;
  }

  lemma {:induction false} FindMiddle(l: seq<Entry>, m: seq<Entry>, r: seq<Entry>, h: nat)
    requires Absent(l, h) && Absent(r, h)
    ensures Find(l + m + r, h) == Find(m, h)
  {
    if l != [] {
      assert l + m + r == [l[0]] + (l[1..] + m + r);
      FindMiddle(l[1..], m, r, h);
    } else if m != [] {
      assert l + m + r == [m[0]] + (m[1..] + r);
      FindMiddle([], m[1..], r, h);
      assert [] + m[1..] + r == m[1..] + r;
    } else {
      assert l + m + r == r;
      FindAbsent(r, h);
    }
  }

  lemma {:induction false} FindAbsent(s: seq<Entry>, h: nat)
    ensures Find(s, h).None? <==> Absent(s, h)
  {
    if s != [] {
      FindAbsent(s[1..], h);
      assert Absent(s[1..], h) && s[0].hash != h ==> Absent(s, h) by {
        assert forall i | 1 <= i < |s| :: s[i] == s[1..][i - 1];
      }
    }
  }

  lemma {:induction false} InsertMembers(s: seq<Entry>, e: Entry, x: Entry)
    ensures x in SortedInsert(s, e) <==> x == e || x in s
  {
    if s != [] && s[0].hash <= e.hash {
      InsertMembers(s[1..], e, x);
      assert s == [s[0]] + s[1..];
    }
  }

  /** Putting a smaller head in front of a sorted sequence keeps it sorted. */
  lemma SortedCons(x: Entry, s: seq<Entry>)
    requires Sorted(s) && forall y | y in s :: x.hash < y.hash
    ensures Sorted([x] + s)
  {
  }

  lemma {:induction false} InsertSorted(s: seq<Entry>, e: Entry)
    requires Sorted(s) && Absent(s, e.hash)
    ensures Sorted(SortedInsert(s, e))
  {
    if s == [] {
    } else if s[0].hash > e.hash {
      SortedCons(e, s);
    } else {
      InsertSorted(s[1..], e);
      forall y | y in SortedInsert(s[1..], e)
        ensures s[0].hash < y.hash
      {
        InsertMembers(s[1..], e, y);
      }
      SortedCons(s[0], SortedInsert(s[1..], e));
    }
  }

  /** Sorted insertion of an absent hash adds exactly that binding and keeps order. */
  lemma {:induction false} InsertIsUpdate(s: seq<Entry>, e: Entry)
    requires Sorted(s) && Absent(s, e.hash)
    ensures Sorted(SortedInsert(s, e))
    ensures Dict(SortedInsert(s, e)) == Dict(s)[e.hash := e]
    ensures |SortedInsert(s, e)| == |s| + 1
  {
    InsertSorted(s, e);
    if s == [] {
    } else if s[0].hash > e.hash {
      assert SortedInsert(s, e)[1..] == s;
    } else {
      InsertIsUpdate(s[1..], e);
      assert SortedInsert(s, e)[1..] == SortedInsert(s[1..], e);
    }
  }

  lemma {:induction false} RemoveMembers(s: seq<Entry>, h: nat, x: Entry)
    requires Sorted(s)
    ensures x in Remove(s, h) <==> x in s && x.hash != h
  {
    if s != [] {
      RemoveMembers(s[1..], h, x);
      assert s == [s[0]] + s[1..];
    }
  }

  lemma {:induction false} RemoveSorted(s: seq<Entry>, h: nat)
    requires Sorted(s)
    ensures Sorted(Remove(s, h))
  {
    if s != [] && s[0].hash != h {
      RemoveSorted(s[1..], h);
      forall y | y in Remove(s[1..], h)
        ensures s[0].hash < y.hash
      {
        RemoveMembers(s[1..], h, y);
      }
      SortedCons(s[0], Remove(s[1..], h));
    }
  }

  lemma {:induction false} RemoveDict(s: seq<Entry>, h: nat)
    requires Sorted(s)
    ensures Dict(Remove(s, h)) == Dict(s) - {h}
    ensures |Remove(s, h)| == if h in Dict(s) then |s| - 1 else |s|
  {
    if s != [] {
      RemoveDict(s[1..], h);
      if s[0].hash == h {
        DictKeys(s[1..], h);
        assert Dict(s) - {h} == Dict(s[1..]);
      } else {
        assert Remove(s, h)[1..] == Remove(s[1..], h);
        assert Dict(s) - {h} == (Dict(s[1..]) - {h})[s[0].hash := s[0]];
      }
    }
  }

  /** Removing a hash from a sorted sequence deletes exactly its binding and keeps order. */
  lemma RemoveIsDelete(s: seq<Entry>, h: nat)
    requires Sorted(s)
    ensures Sorted(Remove(s, h)) && Absent(Remove(s, h), h)
    ensures Dict(Remove(s, h)) == Dict(s) - {h}
    ensures |Remove(s, h)| == if h in Dict(s) then |s| - 1 else |s|
  {
    RemoveSorted(s, h);
    RemoveDict(s, h);
    DictKeys(Remove(s, h), h);
  }

  /** A hash is bound exactly when some entry carries it. */
  lemma {:induction false} DictKeys(s: seq<Entry>, h: nat)
    ensures h in Dict(s) <==> !Absent(s, h)
  {
    if s != [] {
      DictKeys(s[1..], h);
      assert s == [s[0]] + s[1..];
      assert Absent(s, h) <==> s[0].hash != h && Absent(s[1..], h) by {
        assert forall i | 1 <= i < |s| :: s[i] == s[1..][i - 1];
      }
    }
  }

  /** Linear search is map lookup. */
  lemma {:induction false} FindIsDict(s: seq<Entry>, h: nat)
    ensures Find(s, h) == if h in Dict(s) then Some(Dict(s)[h]) else None
  {
    if s != [] {
      FindIsDict(s[1..], h);
    }
  }

  /** A sorted sequence has as many bindings as entries. */
  lemma {:induction false} DictSize(s: seq<Entry>)
    requires Sorted(s)
    ensures |Dict(s)| == |s|
  {
    if s != [] {
      DictSize(s[1..]);
      DictKeys(s[1..], s[0].hash);
      assert Dict(s).Keys == Dict(s[1..]).Keys + {s[0].hash};
      assert |Dict(s).Keys| == |Dict(s[1..]).Keys| + 1;
    }
  }
}
