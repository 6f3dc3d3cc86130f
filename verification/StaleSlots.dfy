/** The slots of a node past its keys. Lookups compare one of them without asking whether it
    is in use, so what stands there matters. */
module StaleSlots {
  import opened Entries
  import opened BTree
  import opened Blocks

  /** Searches that go to child i look for hashes below this. */
  function Bound(tr: Tree, i: nat, hi: nat): nat { if i < |tr.keys| then tr.keys[i].hash else hi }

  /** Slots from k on are zero or out of reach of every search for a hash below hi. */
  ghost predicate SlotsClean(es: seq<Entry>, k: nat, hi: nat) {
    forall j | k <= j < |es| :: es[j] == ZERO_ENTRY || hi <= es[j].hash
  }

  /** So are those of every node, for the searches that reach it. */
  ghost predicate Clean(d: Disk, loc: Loc, tr: Tree, hi: nat)
    decreases tr
  {
    && loc.bno in d && d[loc.bno].TreeBlock? && |loc.kids| == |tr.kids|
    && SlotsClean(d[loc.bno].node.entries, |tr.keys|, hi)
    && forall i | 0 <= i < |tr.kids| :: Clean(d, loc.kids[i], tr.kids[i], Bound(tr, i, hi))
  }

  lemma CleanKid(d: Disk, loc: Loc, tr: Tree, hi: nat, i: nat)
    requires Clean(d, loc, tr, hi) && i < |tr.kids|
    ensures |loc.kids| == |tr.kids| && Clean(d, loc.kids[i], tr.kids[i], Bound(tr, i, hi))
  {
  }

  lemma {:induction false} CleanFrame(d: Disk, e: Disk, loc: Loc, tr: Tree, hi: nat)
    requires Clean(d, loc, tr, hi) && Agree(d, e, Foot(loc))
    ensures Clean(e, loc, tr, hi)
    decreases tr
  {
    assert loc.bno in Foot(loc);
    forall i | 0 <= i < |tr.kids|
      ensures Clean(e, loc.kids[i], tr.kids[i], Bound(tr, i, hi))
    {
      FootMember(loc.kids, i);
      CleanFrame(d, e, loc.kids[i], tr.kids[i], Bound(tr, i, hi));
    }
  }

  lemma {:induction false} CleanSame(d: Disk, e: Disk, loc: Loc, tr: Tree, hi: nat)
    requires Clean(d, loc, tr, hi) && SameNodes(d, e, Foot(loc))
    ensures Clean(e, loc, tr, hi)
    decreases tr
  {
    assert loc.bno in Foot(loc);
    forall i | 0 <= i < |tr.kids|
      ensures Clean(e, loc.kids[i], tr.kids[i], Bound(tr, i, hi))
    {
      FootMember(loc.kids, i);
      CleanSame(d, e, loc.kids[i], tr.kids[i], Bound(tr, i, hi));
    }
  }

  /** Different children lie on different blocks, and none on their parent's. */
  lemma KidsApart(loc: Loc, q: nat, i: nat)
    requires q < |loc.kids| && i < |loc.kids| && q != i && Apart(loc)
    ensures Foot(loc.kids[q]) !! Foot(loc.kids[i]) && loc.bno !in Foot(loc.kids[q])
    ensures Foot(loc.kids[q]) <= Foot(loc) && loc.kids[i].bno in Foot(loc.kids[i])
  {
    FootAt(loc, q);
    FootAt(loc, i);
    if i < q {
      FootMember(loc.kids[..q], i);
    } else {
      FootMember(loc.kids[q + 1..], i - q - 1);
    }
  }

  /** Rewriting one subtree. */
  lemma CleanReplace(d: Disk, e: Disk, loc: Loc, tr: Tree, hi: nat, i: nat, c: Loc, tc: Tree)
    requires Clean(d, loc, tr, hi) && Apart(loc) && i < |tr.kids| && i < |loc.kids|
    requires Clean(e, c, tc, Bound(tr, i, hi)) && Agree(d, e, FootRest(loc, i))
    ensures Clean(e, loc.(kids := loc.kids[i := c]), Node(tr.keys, tr.kids[i := tc]), hi)
  {
    hide Apart, ApartAll, FootAll;
    FootAt(loc, i);
    var l, r := loc.(kids := loc.kids[i := c]), Node(tr.keys, tr.kids[i := tc]);
    forall q | 0 <= q < |r.kids|
      ensures Clean(e, l.kids[q], r.kids[q], Bound(r, q, hi))
    {
      if q != i {
        KidsApart(loc, q, i);
        KidInRest(loc, q, i);
        CleanKid(d, loc, tr, hi, q);
        CleanFrame(d, e, loc.kids[q], tr.kids[q], Bound(tr, q, hi));
      }
    }
  }

  lemma KidInRest(loc: Loc, q: nat, i: nat)
    requires q < |loc.kids| && i < |loc.kids| && q != i
    ensures Foot(loc.kids[q]) <= FootRest(loc, i)
  {
    if q < i {
      FootMember(loc.kids[..i], q);
    } else {
      FootMember(loc.kids[i + 1..], q - i - 1);
    }
  }

  /** A leaf after an insertion: the slot behind the keys is now in use. */
  lemma CleanLeafInsert(d: Disk, e: Disk, loc: Loc, tr: Tree, hi: nat, tr': Tree)
    requires Clean(d, loc, tr, hi) && tr.kids == [] && tr'.kids == [] && |tr'.keys| == |tr.keys| + 1
    requires loc.bno in e && e[loc.bno].TreeBlock? && |e[loc.bno].node.entries| == |d[loc.bno].node.entries|
    requires forall k | |tr.keys| < k < |d[loc.bno].node.entries| ::
               e[loc.bno].node.entries[k] == d[loc.bno].node.entries[k]
    ensures Clean(e, loc, tr', hi)
  {
  }
}
