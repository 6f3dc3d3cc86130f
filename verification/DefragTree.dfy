/** basicbtfs_defrag_btree: the preorder walk that lays a whole tree out on consecutive
    blocks. */
module DefragTree {
  import opened BTree
  import opened Blocks
  import opened Bitmap
  import opened DiskTree
  import opened System
  import opened Relocate
  import opened DefragStep
  import opened Defrag
  import opened DefragNode

  // ------------------------------------------------------------- layouts

  function Nodes(loc: Loc): (n: nat)
    ensures 1 <= n
  {
    1 + NodesAll(loc.kids)
  }

  function NodesAll(locs: seq<Loc>): nat {
    if locs == [] then 0 else Nodes(locs[0]) + NodesAll(locs[1..])
  }

  /** The same tree laid out in preorder from block off on. */
  function Ordered(loc: Loc, off: nat): Loc { Loc(off, OrderedAll(loc.kids, off + 1)) }

  function OrderedAll(locs: seq<Loc>, off: nat): (r: seq<Loc>)
    ensures |r| == |locs|
  {
    if locs == [] then [] else [Ordered(locs[0], off)] + OrderedAll(locs[1..], off + Nodes(locs[0]))
  }

  /** Block numbers in preorder. */
  function Preorder(loc: Loc): seq<nat> { [loc.bno] + PreorderAll(loc.kids) }

  function PreorderAll(locs: seq<Loc>): seq<nat> {
    if locs == [] then [] else Preorder(locs[0]) + PreorderAll(locs[1..])
  }

  function Upto(off: nat, n: nat): seq<nat> { seq(n, i => off + i) }

  /** That layout is what it says: off, off + 1, ... in preorder. */
  lemma {:induction false} OrderedPreorder(loc: Loc, off: nat)
    ensures Preorder(Ordered(loc, off)) == Upto(off, Nodes(loc))
    decreases loc, 1
  {
    OrderedPreorderAll(loc.kids, off + 1);
    assert Upto(off, Nodes(loc)) == [off] + Upto(off + 1, NodesAll(loc.kids));
  }

  lemma {:induction false} OrderedPreorderAll(locs: seq<Loc>, off: nat)
    ensures PreorderAll(OrderedAll(locs, off)) == Upto(off, NodesAll(locs))
    decreases locs, 0
  {
    if locs != [] {
      OrderedPreorder(locs[0], off);
      OrderedPreorderAll(locs[1..], off + Nodes(locs[0]));
      assert OrderedAll(locs, off)[1..] == OrderedAll(locs[1..], off + Nodes(locs[0]));
      assert Upto(off, NodesAll(locs)) == Upto(off, Nodes(locs[0])) + Upto(off + Nodes(locs[0]), NodesAll(locs[1..]));
    }
  }

  ghost predicate IsInterval(s: set<nat>, from: nat, to: nat) { forall x :: x in s <==> from <= x < to }

  lemma {:induction false} OrderedFoot(loc: Loc, off: nat)
    ensures IsInterval(Foot(Ordered(loc, off)), off, off + Nodes(loc))
    decreases loc, 1
  {
    OrderedFootAll(loc.kids, off + 1);
  }

  lemma {:induction false} OrderedFootAll(locs: seq<Loc>, off: nat)
    ensures IsInterval(FootAll(OrderedAll(locs, off)), off, off + NodesAll(locs))
    decreases locs, 0
  {
    if locs != [] {
      OrderedFoot(locs[0], off);
      OrderedFootAll(locs[1..], off + Nodes(locs[0]));
      assert OrderedAll(locs, off)[1..] == OrderedAll(locs[1..], off + Nodes(locs[0]));
    }
  }

  lemma {:induction false} NodesSplit(locs: seq<Loc>, i: nat)
    requires i < |locs|
    ensures NodesAll(locs[..i + 1]) == NodesAll(locs[..i]) + Nodes(locs[i])
    ensures NodesAll(locs) == NodesAll(locs[..i]) + NodesAll(locs[i..])
    ensures NodesAll(locs[i..]) == Nodes(locs[i]) + NodesAll(locs[i + 1..])
  {
    assert locs[i..][1..] == locs[i + 1..];
    if i == 0 {
      assert locs[..1] == [locs[0]] && locs[..0] == [] && locs[0..] == locs;
      assert NodesAll([locs[0]]) == Nodes(locs[0]) + NodesAll([]);
    } else {
      NodesSplit(locs[1..], i - 1);
      assert locs[..i + 1][1..] == locs[1..][..i] && locs[..i][1..] == locs[1..][..i - 1];
      assert locs[1..][i - 1..] == locs[i..];
    }
  }

  lemma {:induction false} OrderedAt(locs: seq<Loc>, off: nat, i: nat)
    requires i < |locs|
    ensures OrderedAll(locs, off)[i] == Ordered(locs[i], off + NodesAll(locs[..i]))
    ensures OrderedAll(locs, off)[..i] == OrderedAll(locs[..i], off)
  {
    if i > 0 {
      OrderedAt(locs[1..], off + Nodes(locs[0]), i - 1);
      assert locs[..i][1..] == locs[1..][..i - 1] && locs[..i][0] == locs[0];
    }
  }

  lemma OrderedWhole(locs: seq<Loc>, off: nat)
    ensures locs[..|locs|] == locs && OrderedAll(locs, off)[..|locs|] == OrderedAll(locs, off)
  {
  }

  // -------------------------------------------------- layouts under renaming

  ghost function Image(r: map<nat, nat>, s: set<nat>): set<nat> { set x | x in s && x in r :: r[x] }

  lemma {:induction false} MapFoot(r: map<nat, nat>, loc: Loc)
    requires Foot(loc) <= r.Keys
    ensures Foot(MapLoc(r, loc)) == Image(r, Foot(loc))
    decreases loc, 1
  {
    assert loc.bno in Foot(loc);
    MapFootAll(r, loc.kids);
  }

  lemma {:induction false} MapFootAll(r: map<nat, nat>, locs: seq<Loc>)
    requires FootAll(locs) <= r.Keys
    ensures FootAll(MapLocs(r, locs)) == Image(r, FootAll(locs))
    decreases locs, 0
  {
    if locs != [] {
      MapFoot(r, locs[0]);
      MapFootAll(r, locs[1..]);
      assert MapLocs(r, locs)[1..] == MapLocs(r, locs[1..]);
    }
  }

  lemma {:induction false} MapApart(r: map<nat, nat>, loc: Loc)
    requires Foot(loc) <= r.Keys && Injective(r) && Apart(loc)
    ensures Apart(MapLoc(r, loc))
    decreases loc, 1
  {
    assert loc.bno in Foot(loc);
    MapFootAll(r, loc.kids);
    MapApartAll(r, loc.kids);
  }

  lemma {:induction false} MapApartAll(r: map<nat, nat>, locs: seq<Loc>)
    requires FootAll(locs) <= r.Keys && Injective(r) && ApartAll(locs)
    ensures ApartAll(MapLocs(r, locs))
    decreases locs, 0
  {
    if locs != [] {
      MapFoot(r, locs[0]);
      MapFootAll(r, locs[1..]);
      MapApart(r, locs[0]);
      MapApartAll(r, locs[1..]);
      assert MapLocs(r, locs)[1..] == MapLocs(r, locs[1..]);
    }
  }

  lemma {:induction false} MapCompose(r: map<nat, nat>, q: map<nat, nat>, loc: Loc)
    requires Foot(loc) <= r.Keys && q.Keys == r.Values
    ensures MapLoc(q, MapLoc(r, loc)) == MapLoc(Compose(r, q), loc)
    decreases loc, 1
  {
    assert loc.bno in Foot(loc) && r[loc.bno] in r.Values;
    MapComposeAll(r, q, loc.kids);
  }

  lemma {:induction false} MapComposeAll(r: map<nat, nat>, q: map<nat, nat>, locs: seq<Loc>)
    requires FootAll(locs) <= r.Keys && q.Keys == r.Values
    ensures MapLocs(q, MapLocs(r, locs)) == MapLocs(Compose(r, q), locs)
    decreases locs, 0
  {
    if locs != [] {
      MapCompose(r, q, locs[0]);
      MapComposeAll(r, q, locs[1..]);
      assert MapLocs(r, locs)[1..] == MapLocs(r, locs[1..]);
    }
  }

  /** The preorder layout only depends on the shape. */
  lemma {:induction false} OrderedMapped(r: map<nat, nat>, loc: Loc, off: nat)
    ensures Nodes(MapLoc(r, loc)) == Nodes(loc) && Ordered(MapLoc(r, loc), off) == Ordered(loc, off)
    decreases loc, 1
  {
    OrderedMappedAll(r, loc.kids, off + 1);
  }

  lemma {:induction false} OrderedMappedAll(r: map<nat, nat>, locs: seq<Loc>, off: nat)
    ensures NodesAll(MapLocs(r, locs)) == NodesAll(locs) && OrderedAll(MapLocs(r, locs), off) == OrderedAll(locs, off)
    decreases locs, 0
  {
    if locs != [] {
      OrderedMapped(r, locs[0], off);
      OrderedMappedAll(r, locs[1..], off + Nodes(locs[0]));
      assert MapLocs(r, locs)[1..] == MapLocs(r, locs[1..]);
    }
  }

  lemma {:induction false} MapFixed(r: map<nat, nat>, loc: Loc)
    requires forall x | x in Foot(loc) && x in r :: r[x] == x
    ensures MapLoc(r, loc) == loc
    decreases loc, 1
  {
    assert loc.bno in Foot(loc);
    MapFixedAll(r, loc.kids);
  }

  lemma {:induction false} MapFixedAll(r: map<nat, nat>, locs: seq<Loc>)
    requires forall x | x in FootAll(locs) && x in r :: r[x] == x
    ensures MapLocs(r, locs) == locs
    decreases locs, 0
  {
    if locs != [] {
      MapFixed(r, locs[0]);
      MapFixedAll(r, locs[1..]);
    }
  }

  // ------------------------------------------------------- what can go wrong

  /** No node will be asked to go where a later sibling of its still lies. */
  ghost predicate NoClash(loc: Loc, off: nat)
    decreases loc, 1
  {
    NoClashAll(loc.kids, off + 1)
  }

  ghost predicate NoClashAll(locs: seq<Loc>, off: nat)
    decreases locs, 0
  {
    locs == [] ||
    (&& (forall j | 0 < j < |locs| :: locs[j].bno != off)
     && NoClash(locs[0], off) && NoClashAll(locs[1..], off + Nodes(locs[0])))
  }

  /** Blocks stay or go past every wanted place. */
  ghost predicate Past(r: map<nat, nat>, s: set<nat>, mark: nat) {
    forall x | x in s && x in r :: r[x] == x || mark <= r[x]
  }

  lemma {:induction false} NoClashMoved(r: map<nat, nat>, loc: Loc, off: nat, mark: nat)
    requires NoClash(loc, off) && off + Nodes(loc) <= mark && Past(r, Foot(loc), mark)
    ensures NoClash(MapLoc(r, loc), off)
    decreases loc, 1
  {
    NoClashMovedAll(r, loc.kids, off + 1, mark);
  }

  lemma {:induction false} NoClashMovedAll(r: map<nat, nat>, locs: seq<Loc>, off: nat, mark: nat)
    requires NoClashAll(locs, off) && off + NodesAll(locs) <= mark && Past(r, FootAll(locs), mark)
    ensures NoClashAll(MapLocs(r, locs), off)
    decreases locs, 0
  {
    if locs != [] {
      var m := MapLocs(r, locs);
      forall j | 0 < j < |m|
        ensures m[j].bno != off
      {
        FootMember(locs, j);
        assert locs[j].bno in Foot(locs[j]);
      }
      OrderedMapped(r, locs[0], off);
      NoClashMoved(r, locs[0], off, mark);
      NoClashMovedAll(r, locs[1..], off + Nodes(locs[0]), mark);
      assert m[1..] == MapLocs(r, locs[1..]);
    }
  }

  /** No cluster of a file reaches from below off to off or beyond. */
  ghost predicate NoStraddle(s: Sys, live: set<nat>, off: nat) {
    forall y | y in live && IsData(s.disk, y) && off <= y :: off <= StartOf(s, y)
  }

  /** Where the cluster of data block y starts. */
  ghost function StartOf(s: Sys, y: nat): nat {
    if y in s.info && s.info[y].ino in s.iBno && IsTable(s.disk, s.iBno[s.info[y].ino])
      && s.info[y].cluster < |s.disk[s.iBno[s.info[y].ino]].clusters|
    then s.disk[s.iBno[s.info[y].ino]].clusters[s.info[y].cluster].start else 0
  }

  lemma StartIsFirst(s: Sys, live: set<nat>, off: nat)
    requires WellLinked(s, live) && NoStraddle(s, live, off) && off in live && IsData(s.disk, off)
    ensures FirstOfCluster(s, live, off)
  {
    assert BlockOk(s, live, off);
    var tb := s.iBno[s.info[off].ino];
    assert StartOf(s, off) == s.disk[tb].clusters[s.info[off].cluster].start;
  }

  /** A cluster moves as a whole. */
  lemma MovedStart(r: map<nat, nat>, s: Sys, live: set<nat>, u: Sys, y: nat)
    requires WellLinked(s, live) && Moved(r, s, live, u) && y in live && IsData(s.disk, y)
    ensures StartOf(s, y) in live && IsData(s.disk, StartOf(s, y)) && StartOf(s, y) <= y
    ensures y in r && StartOf(s, y) in r && StartOf(u, r[y]) == r[StartOf(s, y)]
  {
    hide WellLinked, Moved, NrClusters, Renamed;
    MovedAt(r, s, live, u, y);
    var i, c := s.info[y].ino, s.info[y].cluster;
    var tb := s.iBno[i];
    MovedAt(r, s, live, u, tb);
    MovedAt(r, s, live, u, y);
    TableRun(s, live, tb, c, 0);
    RenamedRun(r, s.disk[tb], u.disk[r[tb]], c, 0);
    MovedAt(r, s, live, u, StartOf(s, y));
    MovedInfo(r, s, live, u, y);
    MovedInode(r, s, live, u, i);
  }

  lemma StraddleStep(r: map<nat, nat>, s: Sys, live: set<nat>, u: Sys, a: nat, off: nat, mark: nat)
    requires WellLinked(s, live) && Moved(r, s, live, u) && NoStraddle(s, live, off)
    requires StepMap(r, live, a, off, mark) && off < mark && !IsData(s.disk, a)
    ensures NoStraddle(u, r.Values, off + 1)
  {
    hide WellLinked, Moved, StartOf, Renamed;
    MovedKeys(r, s, live, u);
    MovedInjective(r, s, live, u);
    forall y' | y' in r.Values && IsData(u.disk, y') && off + 1 <= y'
      ensures off + 1 <= StartOf(u, y')
    {
      var y :| y in r && r[y] == y';
      MovedAt(r, s, live, u, y);
      RenamedData(r, s.disk[y], u.disk[y']);
      MovedStart(r, s, live, u, y);
    }
  }

  lemma MovedInjective(r: map<nat, nat>, s: Sys, live: set<nat>, u: Sys)
    requires Moved(r, s, live, u)
    ensures Injective(r) && r.Keys == live
  {
  }

  // ------------------------------------------------------------- the walk

  /** What a walk may do to block numbers: outside the blocks it places, nothing below off
      moves and what moves goes past the old high-water mark. */
  ghost predicate WalkMap(r: map<nat, nat>, live: set<nat>, placed: set<nat>, off: nat, mark: nat) {
    r.Keys == live && forall x | x in r && x !in placed :: r[x] == x || (off <= x && mark <= r[x])
  }

  ghost predicate Floor(s: set<nat>, off: nat) { forall y | y in s :: off <= y }

  /** Node p of the layout is in place and so are its first i children; o is the next
      wanted block. */
  ghost predicate Walked(d: Disk, t: nat, r: map<nat, nat>, start: Loc, tr: Tree, p: nat, i: nat, o: nat) {
    var cur := MapLoc(r, start);
    && Foot(start) <= r.Keys && Rep(d, t, cur, tr) && Apart(cur) && Foot(cur) <= r.Values
    && cur.bno == p && i <= |cur.kids|
    && cur.kids[..i] == OrderedAll(start.kids, p + 1)[..i] && o == p + 1 + NodesAll(start.kids[..i])
    && Floor(Foot(cur), p) && NoClashAll(cur.kids[i..], o)
  }

  /** The next child meets the walk's own precondition. */
  lemma NextKid(d: Disk, t: nat, r: map<nat, nat>, start: Loc, tr: Tree, p: nat, i: nat, o: nat)
    requires Walked(d, t, r, start, tr, p, i, o) && i < |start.kids|
    ensures |start.kids| == |tr.kids|
    ensures var c := MapLoc(r, start.kids[i]);
            && Floor(Foot(c), o) && Apart(c) && Foot(c) <= r.Values && NoClash(c, o) && Rep(d, t, c, tr.kids[i])
            && c.bno in Foot(c) && Nodes(c) == Nodes(start.kids[i]) && o + Nodes(c) <= p + Nodes(start) && p < o
            && MapLoc(r, start).kids[i] == c
    ensures IsTree(d, p) && i < |d[p].node.children| && d[p].node.children[i] == MapLoc(r, start.kids[i]).bno
  {
    hide Rep, RepAll, NoClash;
    var cur := MapLoc(r, start);
    var c := cur.kids[i];
    RepKid(d, t, cur, tr, i);
    FootAt(cur, i);
    OrderedAt(start.kids, p + 1, i);
    OrderedFootAll(start.kids[..i], p + 1);
    assert cur.kids[i..][0] == c;
    OrderedMapped(r, start.kids[i], o);
    NodesSplit(start.kids, i);
    assert Floor(Foot(c), o) by {
      forall y | y in Foot(c)
        ensures o <= y
      {
        assert y in Foot(cur) && y !in FootRest(cur, i);
      }
    }
  }

  lemma RepKid(d: Disk, t: nat, loc: Loc, tr: Tree, i: nat)
    requires Rep(d, t, loc, tr) && i < |loc.kids|
    ensures |loc.kids| == |tr.kids| == |tr.keys| + 1 && Rep(d, t, loc.kids[i], tr.kids[i])
    ensures IsTree(d, loc.bno) && Holds(t, d[loc.bno].node, loc, tr)
    ensures i < |d[loc.bno].node.children| && d[loc.bno].node.children[i] == loc.kids[i].bno
  {
  }

  /** ... is neither preceded by the block in its way nor under it, */
  lemma NextKidSafe(s: Sys, t: nat, r: map<nat, nat>, start: Loc, tr: Tree, p: nat, i: nat, o: nat)
    requires WellLinked(s, r.Values) && Walked(s.disk, t, r, start, tr, p, i, o) && i < |start.kids|
    ensures var a := MapLoc(r, start.kids[i]).bno; !IsParent(s, a, o) && !LaterSibling(s, a, o)
  {
    hide WellLinked, Rep, RepAll, NoClash, NoClashAll, Apart, Foot, MapLocs, OrderedAll, NodesAll, IsParent,
         LaterSibling;
    var cur := MapLoc(r, start);
    var c := cur.kids[i];
    NextKid(s.disk, t, r, start, tr, p, i, o);
    RepKid(s.disk, t, cur, tr, i);
    NoClashHead(cur.kids, i, o);
    OwnBlock(cur);
    LiveBlock(s, r.Values, p);
    var n := s.disk[p].node;
    KidsOfNode(t, n, cur, tr);
    assert Kids(n)[i] in Kids(n);
    OnlyParent(s, r.Values, c.bno, p);
    LastSibling(s, p, c.bno, o, i);
  }

  lemma KidsOfNode(t: nat, n: BNode, loc: Loc, tr: Tree)
    requires Holds(t, n, loc, tr) && tr.kids != []
    ensures |Kids(n)| == |loc.kids| && forall k | 0 <= k < |loc.kids| :: Kids(n)[k] == loc.kids[k].bno
  {
  }

  /** No later child lies at the first wanted place. */
  lemma NoClashHead(locs: seq<Loc>, i: nat, off: nat)
    requires i < |locs| && NoClashAll(locs[i..], off)
    ensures forall j | i < j < |locs| :: locs[j].bno != off
  {
    forall j | i < j < |locs|
      ensures locs[j].bno != off
    {
      assert locs[i..][j - i] == locs[j];
    }
  }

  lemma LastSibling(s: Sys, p: nat, a: nat, o: nat, i: nat)
    requires IsTree(s.disk, p) && IsTree(s.disk, a) && !s.disk[a].node.root && s.disk[a].node.parent == p && p != o
    requires var ks := Kids(s.disk[p].node);
             i < |ks| && ks[i] == a && Distinct(ks) && forall j | i < j < |ks| :: ks[j] != o
    ensures !IsParent(s, a, o) && !LaterSibling(s, a, o)
  {
  }

  /** ... and once it is placed, one more child is in place. */
  lemma KidPlaced(s: Sys, u: Sys, t: nat, r: map<nat, nat>, q: map<nat, nat>, start: Loc, tr: Tree, p: nat, i: nat,
                  o: nat, mark: nat)
    requires Walked(s.disk, t, r, start, tr, p, i, o) && i < |start.kids| && p + Nodes(start) <= mark
    requires Moved(q, s, r.Values, u)
    requires var c := MapLoc(r, start.kids[i]); WalkMap(q, r.Values, Foot(c), o, mark) && MapLoc(q, c) == Ordered(c, o)
    ensures Walked(u.disk, t, Compose(r, q), start, tr, p, i + 1, o + Nodes(start.kids[i]))
  {
    hide Moved, Rep, RepAll, NoClash, NoClashAll, Foot, FootAll, Apart, ApartAll, Image, Injective, Compose, Nodes,
         NodesAll, MapLocs, Ordered, OrderedAll, WalkMap, Floor;
    var cur := MapLoc(r, start);
    CountLeft(start, p, i, o);
    NextKid(s.disk, t, r, start, tr, p, i, o);
    MovedInjective(q, s, r.Values, u);
    MapCompose(r, q, start);
    ComposeKeys(r, q);
    MapFoot(q, cur);
    MapApart(q, cur);
    MovedTree(q, s, r.Values, u, t, cur, tr);
    PlacedFront(r, q, start, cur, p, i, o, mark);
    PlacedBack(r, q, start, cur, i, o, mark);
    ImageFloor(q, r.Values, cur, i, p, o, mark);
  }

  lemma CountLeft(start: Loc, p: nat, i: nat, o: nat)
    requires i < |start.kids| && o == p + 1 + NodesAll(start.kids[..i])
    ensures o + NodesAll(start.kids[i..]) == p + Nodes(start)
  {
    NodesSplit(start.kids, i);
  }

  lemma PlacedFront(r: map<nat, nat>, q: map<nat, nat>, start: Loc, cur: Loc, p: nat, i: nat, o: nat, mark: nat)
    requires i < |start.kids| && cur == MapLoc(r, start) && Apart(cur) && Foot(cur) <= r.Values && cur.bno == p
    requires cur.kids[..i] == OrderedAll(start.kids, p + 1)[..i] && o == p + 1 + NodesAll(start.kids[..i])
    requires WalkMap(q, r.Values, Foot(cur.kids[i]), o, mark) && MapLoc(q, cur.kids[i]) == Ordered(cur.kids[i], o)
    ensures var m := MapLoc(q, cur); m.bno == p && m.kids[..i + 1] == OrderedAll(start.kids, p + 1)[..i + 1]
    ensures o + Nodes(start.kids[i]) == p + 1 + NodesAll(start.kids[..i + 1])
  {
    hide Foot, FootAll, Apart, ApartAll, WalkMap, Nodes, NodesAll, MapLocs, Ordered, OrderedAll;
    OwnBlock(cur);
    EarlierStay(q, cur, i, o, p, start, mark, r.Values);
    OrderedMapped(r, start.kids[i], o);
    OrderedAt(start.kids, p + 1, i);
    NodesSplit(start.kids, i);
    KidsInPlace(MapLocs(q, cur.kids), OrderedAll(start.kids, p + 1), i);
  }

  lemma NoClashTail(locs: seq<Loc>, i: nat, off: nat)
    requires i < |locs| && NoClashAll(locs[i..], off)
    ensures NoClashAll(locs[i + 1..], off + Nodes(locs[i]))
  {
    assert locs[i..][0] == locs[i] && locs[i..][1..] == locs[i + 1..];
  }

  lemma PlacedBack(r: map<nat, nat>, q: map<nat, nat>, start: Loc, cur: Loc, i: nat, o: nat, mark: nat)
    requires i < |start.kids| && cur == MapLoc(r, start) && Apart(cur) && Foot(cur) <= r.Values
    requires NoClashAll(cur.kids[i..], o) && o + NodesAll(start.kids[i..]) <= mark
    requires WalkMap(q, r.Values, Foot(cur.kids[i]), o, mark)
    ensures NoClashAll(MapLoc(q, cur).kids[i + 1..], o + Nodes(start.kids[i]))
  {
    hide Foot, FootAll, Apart, ApartAll, WalkMap, NoClash, NoClashAll, Nodes, NodesAll, MapLoc, MapLocs, Ordered,
         OrderedAll, Past;
    KidsOfMap(r, start);
    KidsOfMap(q, cur);
    OrderedMapped(r, start.kids[i], o);
    NodesSplit(start.kids, i);
    LaterPast(q, r.Values, cur, i, o, mark);
    RestCount(r, start.kids, i);
    NoClashTail(cur.kids, i, o);
    NoClashMovedAll(q, cur.kids[i + 1..], o + Nodes(cur.kids[i]), mark);
    MapSlice(q, cur.kids, i + 1);
  }

  lemma KidsOfMap(r: map<nat, nat>, loc: Loc)
    ensures MapLoc(r, loc).kids == MapLocs(r, loc.kids)
  {
  }

  lemma ComposeKeys(r: map<nat, nat>, q: map<nat, nat>)
    requires q.Keys == r.Values
    ensures Compose(r, q).Keys == r.Keys && Compose(r, q).Values == q.Values
  {
    var m := Compose(r, q);
    assert m.Keys == r.Keys;
    forall y | y in q.Values
      ensures y in m.Values
    {
      var z :| z in q && q[z] == y;
      var x :| x in r && r[x] == z;
      assert m[x] == y;
    }
  }

  lemma KidsInPlace(a: seq<Loc>, b: seq<Loc>, i: nat)
    requires i < |a| == |b| && a[..i] == b[..i] && a[i] == b[i]
    ensures a[..i + 1] == b[..i + 1]
  {
    assert a[..i + 1] == a[..i] + [a[i]] && b[..i + 1] == b[..i] + [b[i]];
  }

  lemma {:induction false} MapSlice(q: map<nat, nat>, locs: seq<Loc>, i: nat)
    requires i <= |locs|
    ensures MapLocs(q, locs)[i..] == MapLocs(q, locs[i..]) && MapLocs(q, locs)[..i] == MapLocs(q, locs[..i])
  {
  }

  lemma RestCount(r: map<nat, nat>, locs: seq<Loc>, i: nat)
    requires i < |locs|
    ensures NodesAll(MapLocs(r, locs)[i + 1..]) == NodesAll(locs[i + 1..])
  {
    MapSlice(r, locs, i + 1);
    OrderedMappedAll(r, locs[i + 1..], 0);
  }

  /** Placing child i moves none of the children before it. */
  lemma EarlierStay(q: map<nat, nat>, cur: Loc, i: nat, o: nat, p: nat, start: Loc, mark: nat, live: set<nat>)
    requires i < |cur.kids| == |start.kids| && Apart(cur) && cur.bno == p && Foot(cur) <= live
    requires cur.kids[..i] == OrderedAll(start.kids, p + 1)[..i] && o == p + 1 + NodesAll(start.kids[..i])
    requires WalkMap(q, live, Foot(cur.kids[i]), o, mark)
    ensures MapLocs(q, cur.kids)[..i] == cur.kids[..i] && q[p] == p
  {
    FootAt(cur, i);
    OwnBlock(cur);
    OrderedAt(start.kids, p + 1, i);
    OrderedFootAll(start.kids[..i], p + 1);
    assert forall x | x in FootAll(cur.kids[..i]) :: x in FootRest(cur, i);
    MapFixedAll(q, cur.kids[..i]);
    MapSlice(q, cur.kids, i);
  }

  /** ... and sends none of those after it to a wanted place. */
  lemma LaterPast(q: map<nat, nat>, live: set<nat>, cur: Loc, i: nat, o: nat, mark: nat)
    requires i < |cur.kids| && Apart(cur) && WalkMap(q, live, Foot(cur.kids[i]), o, mark)
    ensures Past(q, FootAll(cur.kids[i + 1..]), mark)
  {
    FootAt(cur, i);
    assert forall x | x in FootAll(cur.kids[i + 1..]) :: x in FootRest(cur, i);
  }

  lemma ImageFloor(q: map<nat, nat>, live: set<nat>, cur: Loc, i: nat, p: nat, o: nat, mark: nat)
    requires i < |cur.kids| && Apart(cur) && Foot(cur) <= live && WalkMap(q, live, Foot(cur.kids[i]), o, mark)
    requires Floor(Foot(cur), p) && p <= o && p <= mark && MapLoc(q, cur.kids[i]) == Ordered(cur.kids[i], o)
    ensures Floor(Image(q, Foot(cur)), p) && Image(q, Foot(cur)) <= q.Values
  {
    FootAt(cur, i);
    MapFoot(q, cur.kids[i]);
    OrderedFoot(cur.kids[i], o);
    forall y | y in Foot(cur)
      ensures p <= q[y]
    {
      if y in Foot(cur.kids[i]) { assert q[y] in Image(q, Foot(cur.kids[i])); }
    }
  }

  /** Two stretches of a walk make one. */
  lemma WalkTwice(r: map<nat, nat>, q: map<nat, nat>, live: set<nat>, placed: set<nat>, more: set<nat>, p: nat, o: nat,
                  m0: nat, m1: nat)
    requires WalkMap(r, live, placed, p, m0) && WalkMap(q, r.Values, more, o, m1) && Injective(r)
    requires p <= o && m0 <= m1 && more <= Image(r, placed)
    ensures WalkMap(Compose(r, q), live, placed, p, m0)
  {
    ComposeKeys(r, q);
    assert forall x | x in r && x !in placed :: r[x] !in Image(r, placed);
  }

  /** Everything a walk over the subtree tr at loc needs: its nodes are live blocks from off
      on, with room to evict whatever is in their way. */
  ghost predicate Walkable(v: Volume, off: nat, loc: Loc, tr: Tree, live: set<nat>, base: nat)
    reads v, v.alloc, v.alloc.bits
  {
    && Steady(v, live, base) && 0 < base <= off && off + Nodes(loc) <= v.alloc.unused
    && Rep(v.blocks, v.t, loc, tr) && Apart(loc) && Foot(loc) <= live && Floor(Foot(loc), off)
    && NoClash(loc, off) && NoStraddle(Snap(v), live, off)
    && v.alloc.unused + (1 + CLUSTER_LEN) * Nodes(loc) <= v.alloc.bits.Length
  }

  /** basicbtfs_defrag_btree: the n nodes of the tree end up in preorder on off .. off+n-1,
      and the whole block graph is renamed consistently, so that every tree, name list and
      file reads as before. */
  method DefragBtree(v: Volume, bno: nat, off: nat, ghost loc: Loc, ghost tr: Tree, ghost live: set<nat>,
                     ghost base: nat)
    returns (ok: bool, off': nat, ghost r: map<nat, nat>)
    requires Walkable(v, off, loc, tr, live, base) && bno == loc.bno
    requires !IsParent(Snap(v), bno, off) && !LaterSibling(Snap(v), bno, off)
    modifies v`blocks, v`iBno, v`info, v.alloc, v.alloc.bits
    ensures ok && off' == off + Nodes(loc)
    ensures MapLoc(r, loc) == Ordered(loc, off)
    ensures Moved(r, old(Snap(v)), live, Snap(v)) && Steady(v, r.Values, base)
    ensures WalkMap(r, live, Foot(loc), off, old(v.alloc.unused)) && NoStraddle(Snap(v), r.Values, off')
    ensures old(v.alloc.unused) <= v.alloc.unused <= old(v.alloc.unused) + (1 + CLUSTER_LEN) * Nodes(loc)
    decreases tr, 1
  {
    hide SetBits, Took, TookAt, Gave, WellLinked, HonestAll, Moved, Rep, RepAll, NoClash, NoClashAll, Foot, FootAll,
         Apart, ApartAll, Placed, MapLocs, Ordered, OrderedAll, IsParent, LaterSibling, FirstOfCluster, Walked;
    ghost var s, mark := Snap(v), v.alloc.unused;
    OwnBlock(loc);
    RepRoot(v.blocks, v.t, loc, tr);
    if off in live && IsData(v.blocks, off) {
      StartIsFirst(s, live, off);
    }
    UsedBlock(v.alloc.Used(), mark, v.alloc.bits.Length, live, base, bno);
    LiveBlock(s, live, bno);
    var new_ := off;
    ghost var r1;
    ok, off', r1 := DefragBtreeNode(v, bno, off, live, base);
    if bno == 0 || bno > v.alloc.bits.Length {
      return false, off', r1;
    }
    ghost var s1, m1 := Snap(v), v.alloc.unused;
    MovedInjective(r1, s, live, s1);
    StraddleStep(r1, s, live, s1, bno, off, mark);
    NodePlaced(s, s1, live, v.t, r1, loc, tr, off, mark);
    ghost var r2;
    ok, off', r2 := DefragKids(v, new_, off', MapLoc(r1, loc), tr, r1.Values, base);
    r := Compose(r1, r2);
    MovedTwice(r1, r2, s, live, s1, Snap(v));
    WalkDone(r1, r2, loc, live, off, mark, m1);
  }

  /** The loop over the children of the node just placed at block p. */
  method DefragKids(v: Volume, p: nat, o0: nat, ghost start: Loc, ghost tr: Tree, ghost live: set<nat>, ghost base: nat)
    returns (ok: bool, o: nat, ghost r: map<nat, nat>)
    requires Steady(v, live, base) && 0 < base <= p && p + Nodes(start) <= v.alloc.unused && o0 == p + 1
    requires Rep(v.blocks, v.t, start, tr) && Apart(start) && Foot(start) <= live && Floor(Foot(start), p)
             && start.bno == p
    requires NoClash(start, p) && NoStraddle(Snap(v), live, p + 1)
    requires v.alloc.unused + (1 + CLUSTER_LEN) * (Nodes(start) - 1) <= v.alloc.bits.Length
    modifies v`blocks, v`iBno, v`info, v.alloc, v.alloc.bits
    ensures ok && o == p + Nodes(start) && MapLoc(r, start) == Ordered(start, p)
    ensures Moved(r, old(Snap(v)), live, Snap(v)) && Steady(v, r.Values, base)
    ensures WalkMap(r, live, Foot(start), p, old(v.alloc.unused)) && NoStraddle(Snap(v), r.Values, o)
    ensures old(v.alloc.unused) <= v.alloc.unused <= old(v.alloc.unused) + (1 + CLUSTER_LEN) * (Nodes(start) - 1)
    decreases tr, 0
  {
    hide SetBits, Took, TookAt, Gave, WellLinked, HonestAll, Moved, Rep, RepAll, NoClash, NoClashAll, Foot, FootAll,
         Apart, ApartAll, Placed, MapLoc, MapLocs, Ordered, OrderedAll, NodesAll, IsParent, LaterSibling, Walked,
         WalkMap, NoStraddle, Idle, Compose, Image, Injective, Floor;
    ghost var s, mark := Snap(v), v.alloc.unused;
    r := Idle(live);
    o, ok := o0, true;
    IdleStart(s, live, v.t, start, tr, p, mark);
    var index := 0;
    WalkedNode(v.blocks, v.t, r, start, tr, p, 0, o);
    while index <= v.blocks[p].node.nrOfKeys && !v.blocks[p].node.leaf
      invariant ok && index <= |start.kids| && Walked(v.blocks, v.t, r, start, tr, p, index, o)
      invariant IsTree(v.blocks, p) && v.blocks[p].node.nrOfKeys == |tr.keys|
                && (v.blocks[p].node.leaf <==> tr.kids == [])
      invariant Moved(r, s, live, Snap(v)) && Steady(v, r.Values, base)
      invariant WalkMap(r, live, Foot(start), p, mark) && NoStraddle(Snap(v), r.Values, o)
      invariant o == p + 1 + NodesAll(start.kids[..index])
      invariant mark <= v.alloc.unused <= mark + (1 + CLUSTER_LEN) * NodesAll(start.kids[..index])
      decreases |start.kids| - index
    {
      ghost var s1, i, m1 := Snap(v), index, v.alloc.unused;
      WalkedNode(v.blocks, v.t, r, start, tr, p, i, o);
      NextKid(v.blocks, v.t, r, start, tr, p, i, o);
      NextKidSafe(s1, v.t, r, start, tr, p, i, o);
      CountLeft(start, p, i, o);
      NodesSplit(start.kids, i);
      ghost var c := MapLoc(r, start.kids[i]);
      ghost var q;
      ghost var o1 := o;
      ok, o, q := DefragBtree(v, v.blocks[p].node.children[index], o, c, tr.kids[i], r.Values, base);
      KidPlaced(s1, Snap(v), v.t, r, q, start, tr, p, i, o1, m1);
      MovedTwice(r, q, s, live, s1, Snap(v));
      MovedInjective(r, s, live, s1);
      MovedInjective(q, s1, r.Values, Snap(v));
      KidInImage(r, start, i);
      WalkTwice(r, q, live, Foot(start), Foot(c), p, o1, mark, m1);
      ComposeKeys(r, q);
      r := Compose(r, q);
      index := index + 1;
      WalkedNode(v.blocks, v.t, r, start, tr, p, index, o);
    }
    WalkedNode(v.blocks, v.t, r, start, tr, p, index, o);
    WalkedAll(v.blocks, v.t, r, start, tr, p, o);
  }

  function Idle(live: set<nat>): map<nat, nat> { map x | x in live :: x }

  lemma RepRoot(d: Disk, t: nat, loc: Loc, tr: Tree)
    requires Rep(d, t, loc, tr)
    ensures IsTree(d, loc.bno)
  {
  }

  /** After its root is placed the tree is ready for the loop over the children. */
  lemma NodePlaced(s: Sys, u: Sys, live: set<nat>, t: nat, r: map<nat, nat>, loc: Loc, tr: Tree, off: nat, mark: nat)
    requires Moved(r, s, live, u) && StepMap(r, live, loc.bno, off, mark) && off + Nodes(loc) <= mark
    requires Rep(s.disk, t, loc, tr) && Apart(loc) && Foot(loc) <= live && Floor(Foot(loc), off) && NoClash(loc, off)
    ensures var m := MapLoc(r, loc);
            && Rep(u.disk, t, m, tr) && Apart(m) && Foot(m) <= r.Values && Floor(Foot(m), off) && m.bno == off
            && NoClash(m, off) && Nodes(m) == Nodes(loc)
  {
    hide Moved, Rep, RepAll, Apart, ApartAll, Injective;
    MovedInjective(r, s, live, u);
    MovedTree(r, s, live, u, t, loc, tr);
    MapApart(r, loc);
    MapFoot(r, loc);
    RootApart(loc);
    NoClashMovedAll(r, loc.kids, off + 1, mark);
    OrderedMapped(r, loc, off);
  }

  lemma RootApart(loc: Loc)
    requires Apart(loc)
    ensures loc.bno !in FootAll(loc.kids) && Foot(loc) == {loc.bno} + FootAll(loc.kids)
  {
  }

  lemma WalkDone(r: map<nat, nat>, q: map<nat, nat>, loc: Loc, live: set<nat>, off: nat, mark: nat, m1: nat)
    requires StepMap(r, live, loc.bno, off, mark) && Injective(r) && Foot(loc) <= live && mark <= m1
    requires WalkMap(q, r.Values, Foot(MapLoc(r, loc)), off, m1)
             && MapLoc(q, MapLoc(r, loc)) == Ordered(MapLoc(r, loc), off)
    ensures MapLoc(Compose(r, q), loc) == Ordered(loc, off)
    ensures WalkMap(Compose(r, q), live, Foot(loc), off, mark) && Compose(r, q).Values == q.Values
  {
    hide Foot, FootAll, MapLocs, OrderedAll, Injective;
    OwnBlock(loc);
    MapFoot(r, loc);
    MapCompose(r, q, loc);
    OrderedMapped(r, loc, off);
    WalkTwice(r, q, live, Foot(loc), Foot(MapLoc(r, loc)), off, off, mark, m1);
    ComposeKeys(r, q);
  }

  lemma IdleMap(live: set<nat>)
    ensures Idle(live).Keys == live == Idle(live).Values && forall x | x in live :: Idle(live)[x] == x
  {
    var r := Idle(live);
    forall x | x in live
      ensures x in r.Values
    {
      assert r[x] == x;
    }
  }

  lemma IdleStart(s: Sys, live: set<nat>, t: nat, start: Loc, tr: Tree, p: nat, mark: nat)
    requires WellLinked(s, live) && Rep(s.disk, t, start, tr) && Apart(start) && Foot(start) <= live
    requires Floor(Foot(start), p) && start.bno == p && NoClash(start, p)
    ensures Idle(live).Values == live && Moved(Idle(live), s, live, s)
            && WalkMap(Idle(live), live, Foot(start), p, mark)
    ensures Walked(s.disk, t, Idle(live), start, tr, p, 0, p + 1) && NodesAll(start.kids[..0]) == 0
  {
    hide WellLinked, Moved, Rep, Apart, Foot;
    var r := Idle(live);
    IdleMap(live);
    MovedNowhere(s, live, r);
    MapFixed(r, start);
    assert start.kids[0..] == start.kids;
  }

  lemma WalkedNode(d: Disk, t: nat, r: map<nat, nat>, start: Loc, tr: Tree, p: nat, i: nat, o: nat)
    requires Walked(d, t, r, start, tr, p, i, o)
    ensures IsTree(d, p) && d[p].node.nrOfKeys == |tr.keys| && (d[p].node.leaf <==> tr.kids == [])
    ensures |start.kids| == |tr.kids| && (tr.kids != [] ==> |tr.kids| == |tr.keys| + 1)
  {
  }

  lemma WalkedAll(d: Disk, t: nat, r: map<nat, nat>, start: Loc, tr: Tree, p: nat, o: nat)
    requires Walked(d, t, r, start, tr, p, |start.kids|, o)
    ensures MapLoc(r, start) == Ordered(start, p) && o == p + Nodes(start)
    ensures NodesAll(start.kids[..|start.kids|]) == Nodes(start) - 1
  {
    OrderedWhole(start.kids, p + 1);
    var m := MapLoc(r, start).kids;
    assert m[..|m|] == m;
  }

  lemma KidInImage(r: map<nat, nat>, start: Loc, i: nat)
    requires i < |start.kids| && Foot(start) <= r.Keys
    ensures Foot(MapLoc(r, start.kids[i])) <= Image(r, Foot(start))
  {
    FootAt(start, i);
    MapFoot(r, start.kids[i]);
  }
}
