/** When the walk over a tree goes wrong: exactly when, in the layout it starts from, some node
    has a later sibling on the very block the node is to take. */
module DefragClash {
  import opened BTree
  import opened Blocks
  import opened DiskTree
  import opened System
  import opened Relocate
  import opened DefragStep
  import opened DefragNode
  import opened DefragTree
  import opened DefragName
  import opened DefragDirs
  import opened DefragNames
  import opened Directory

  // --------------------------------------------------------------- layouts

  /** With the forest to be laid out in preorder from off on, its node k has a later sibling
      on the block it is to take, off + k. */
  ghost predicate ClashAllAt(locs: seq<Loc>, off: nat, k: nat)
    decreases locs
  {
    locs != [] &&
    if k >= Nodes(locs[0]) then ClashAllAt(locs[1..], off + Nodes(locs[0]), k - Nodes(locs[0]))
    else if k == 0 then exists j | 0 < j < |locs| :: locs[j].bno == off
    else ClashAllAt(locs[0].kids, off + 1, k - 1)
  }

  ghost predicate ClashAt(loc: Loc, off: nat, k: nat) { k > 0 && ClashAllAt(loc.kids, off + 1, k - 1) }

  ghost predicate Meets(locs: seq<Loc>, off: nat, k: nat) { ClashAllAt(locs, off, k) }

  /** NoClash speaks of every node and the block it is to take. */
  lemma {:induction false} NoClashIs(loc: Loc, off: nat)
    ensures NoClash(loc, off) <==> forall k | 0 <= k < Nodes(loc) :: !ClashAt(loc, off, k)
    decreases loc, 1
  {
    var o := off + 1;
    NoClashAllIs(loc.kids, o);
    forall k: nat | k < Nodes(loc)
      ensures ClashAt(loc, off, k) <==> k > 0 && Meets(loc.kids, o, k - 1)
    {
    }
    if k: nat :| k < NodesAll(loc.kids) && Meets(loc.kids, o, k) {
      assert ClashAt(loc, off, k + 1);
    }
  }

  lemma {:induction false} NoClashAllIs(locs: seq<Loc>, off: nat)
    ensures NoClashAll(locs, off) <==> forall k | 0 <= k < NodesAll(locs) :: !Meets(locs, off, k)
    decreases locs, 0
  {
    if locs != [] {
      hide ClashAllAt, NoClash, NoClashAll, ClashAt, Meets;
      var n := Nodes(locs[0]);
      var o, rest := off + n, locs[1..];
      NoClashIs(locs[0], off);
      NoClashAllIs(rest, o);
      NoClashFirst(locs, off);
      forall k: nat | k < NodesAll(locs)
        ensures Meets(locs, off, k) <==>
                if k >= n then Meets(rest, o, k - n)
                else if k == 0 then exists j | 0 < j < |locs| :: locs[j].bno == off
                else ClashAt(locs[0], off, k)
      {
        ClashFirst(locs, off, k);
      }
      if k: nat :| k < n && ClashAt(locs[0], off, k) {
        NoClashNone(locs[0], off, k);
        assert Meets(locs, off, k);
      }
      if k: nat :| k < NodesAll(rest) && Meets(rest, o, k) {
        assert Meets(locs, off, n + k);
      }
      assert Meets(locs, off, 0) <==> exists j | 0 < j < |locs| :: locs[j].bno == off;
      if NoClash(locs[0], off) {
        NoClashNone(locs[0], off, 0);
      }
    }
  }

  lemma NoClashNone(loc: Loc, off: nat, k: nat)
    ensures ClashAt(loc, off, k) ==> k > 0
  {
  }

  lemma NoClashFirst(locs: seq<Loc>, off: nat)
    requires locs != []
    ensures NoClashAll(locs, off) <==>
              && (forall j | 0 < j < |locs| :: locs[j].bno != off)
              && NoClash(locs[0], off) && NoClashAll(locs[1..], off + Nodes(locs[0]))
  {
  }

  lemma ClashFirst(locs: seq<Loc>, off: nat, k: nat)
    requires locs != []
    ensures var n := Nodes(locs[0]);
            Meets(locs, off, k) <==>
            if k >= n then Meets(locs[1..], off + n, k - n)
            else if k == 0 then exists j | 0 < j < |locs| :: locs[j].bno == off
            else ClashAt(locs[0], off, k)
  {
  }

  // -------------------------------------------------------------- preorder

  lemma {:induction false} PreorderSize(loc: Loc)
    ensures |Preorder(loc)| == Nodes(loc)
    decreases loc, 1
  {
    PreorderAllSize(loc.kids);
  }

  lemma {:induction false} PreorderAllSize(locs: seq<Loc>)
    ensures |PreorderAll(locs)| == NodesAll(locs)
    decreases locs, 0
  {
    if locs != [] {
      PreorderSize(locs[0]);
      PreorderAllSize(locs[1..]);
    }
  }

  lemma {:induction false} PreorderFoot(loc: Loc, b: nat)
    ensures b in Preorder(loc) <==> b in Foot(loc)
    decreases loc, 1
  {
    PreorderAllFoot(loc.kids, b);
  }

  lemma {:induction false} PreorderAllFoot(locs: seq<Loc>, b: nat)
    ensures b in PreorderAll(locs) <==> b in FootAll(locs)
    decreases locs, 0
  {
    if locs != [] {
      PreorderFoot(locs[0], b);
      PreorderAllFoot(locs[1..], b);
    }
  }

  /** No block comes twice. */
  lemma {:induction false} PreorderOnce(loc: Loc)
    requires Apart(loc)
    ensures Distinct(Preorder(loc))
    decreases loc, 1
  {
    PreorderAllOnce(loc.kids);
    PreorderAllFoot(loc.kids, loc.bno);
    JoinDistinct([loc.bno], PreorderAll(loc.kids));
  }

  lemma {:induction false} PreorderAllOnce(locs: seq<Loc>)
    requires ApartAll(locs)
    ensures Distinct(PreorderAll(locs))
    decreases locs, 0
  {
    if locs != [] {
      PreorderOnce(locs[0]);
      PreorderAllOnce(locs[1..]);
      forall b | b in Preorder(locs[0])
        ensures b !in PreorderAll(locs[1..])
      {
        PreorderFoot(locs[0], b);
        PreorderAllFoot(locs[1..], b);
      }
      JoinDistinct(Preorder(locs[0]), PreorderAll(locs[1..]));
    }
  }

  lemma JoinDistinct(a: seq<nat>, b: seq<nat>)
    requires Distinct(a) && Distinct(b) && forall x | x in a :: x !in b
    ensures Distinct(a + b)
  {
    var s := a + b;
    forall i, j | 0 <= i < j < |s|
      ensures s[i] != s[j]
    {
      if j < |a| { assert s[i] == a[i] && s[j] == a[j]; }
      else if i >= |a| { assert s[i] == b[i - |a|] && s[j] == b[j - |a|]; }
      else { assert s[i] == a[i] && s[j] == b[j - |a|] && a[i] in a && b[j - |a|] in b; }
    }
  }

  /** Where the children of a node come in preorder. */
  lemma {:induction false} KidPlace(locs: seq<Loc>, j: nat)
    requires j < |locs|
    ensures NodesAll(locs[..j]) < |PreorderAll(locs)|
    ensures PreorderAll(locs)[NodesAll(locs[..j])] == locs[j].bno
  {
    PreorderAllSize(locs);
    PreorderSize(locs[0]);
    if j == 0 {
      assert locs[..0] == [];
    } else {
      KidPlace(locs[1..], j - 1);
      assert locs[..j][1..] == locs[1..][..j - 1];
    }
  }

  // --------------------------------------------------- the walk, step by step

  /** One node put in its place: the renaming and the volume afterwards. */
  datatype Placement = Placement(q: map<nat, nat>, after: Sys)

  function State(s: Sys, ps: seq<Placement>): Sys { if ps == [] then s else ps[|ps| - 1].after }

  function Total(live: set<nat>, ps: seq<Placement>): map<nat, nat> {
    if ps == [] then Idle(live) else Compose(Total(live, ps[..|ps| - 1]), ps[|ps| - 1].q)
  }

  /** The walk has put the first |ps| nodes, in preorder, on off, off + 1, ..., each with the
      effect that one step has (DefragBtreeNode). */
  ghost predicate InTurn(s: Sys, live: set<nat>, loc: Loc, off: nat, mark: nat, ps: seq<Placement>)
    decreases |ps|
  {
    ps == [] ||
    var k := |ps| - 1;
    var r := Total(live, ps[..k]);
    && InTurn(s, live, loc, off, mark, ps[..k])
    && k < |Preorder(loc)| && Preorder(loc)[k] in r
    && Steps(State(s, ps[..k]), r.Values, r[Preorder(loc)[k]], off + k, mark, ps[k])
  }

  ghost predicate Steps(s: Sys, live: set<nat>, a: nat, o: nat, mark: nat, p: Placement) {
    Moved(p.q, s, live, p.after) && StepMap(p.q, live, a, o, mark) && OthersStay(p.q, s.disk, a, o)
  }

  /** Which blocks the nodes are on after k placements. */
  ghost predicate After(r: map<nat, nat>, xs: seq<nat>, off: nat, mark: nat, k: nat) {
    && k <= |xs| && (forall i | 0 <= i < |xs| :: xs[i] in r)
    && (forall i | 0 <= i < k :: r[xs[i]] == off + i)
    && forall i | k <= i < |xs| :: if off + k <= xs[i] then r[xs[i]] == xs[i] else r[xs[i]] == xs[i] || mark <= r[xs[i]]
  }

  lemma {:induction false} TurnsMove(s: Sys, live: set<nat>, t: nat, loc: Loc, tr: Tree, off: nat, mark: nat,
                                     ps: seq<Placement>)
    requires WellLinked(s, live) && Rep(s.disk, t, loc, tr) && Apart(loc) && Foot(loc) <= live
    requires off + Nodes(loc) <= mark && InTurn(s, live, loc, off, mark, ps)
    ensures Moved(Total(live, ps), s, live, State(s, ps)) && After(Total(live, ps), Preorder(loc), off, mark, |ps|)
    decreases |ps|
  {
    hide WellLinked, Moved, Rep, Apart, Foot, Preorder, Compose, StepMap, OthersStay, Nodes;
    PreorderSize(loc);
    var xs := Preorder(loc);
    forall i | 0 <= i < |xs|
      ensures xs[i] in live && IsTree(s.disk, xs[i])
    {
      PreorderFoot(loc, xs[i]);
      FootTree(s.disk, t, loc, tr, xs[i]);
    }
    if ps == [] {
      IdleMap(live);
      MovedNowhere(s, live, Idle(live));
    } else {
      var k := |ps| - 1;
      var front, u := ps[..k], State(s, ps[..k]);
      var r, q := Total(live, front), ps[k].q;
      TurnsMove(s, live, t, loc, tr, off, mark, front);
      MovedTwice(r, q, s, live, u, ps[k].after);
      PreorderOnce(loc);
      MovedInjective(r, s, live, u);
      forall i | 0 <= i < |xs|
        ensures r[xs[i]] in r.Values && IsTree(u.disk, r[xs[i]])
      {
        MovedAt(r, s, live, u, xs[i]);
        RenamedData(r, s.disk[xs[i]], u.disk[r[xs[i]]]);
      }
      TurnAfter(r, q, u.disk, xs, off, mark, k);
    }
  }

  lemma TurnAfter(r: map<nat, nat>, q: map<nat, nat>, d: Disk, xs: seq<nat>, off: nat, mark: nat, k: nat)
    requires After(r, xs, off, mark, k) && k < |xs| && Distinct(xs) && Injective(r) && off + |xs| <= mark
    requires forall i | 0 <= i < |xs| :: r[xs[i]] in r.Values && !IsData(d, r[xs[i]])
    requires StepMap(q, r.Values, r[xs[k]], off + k, mark) && OthersStay(q, d, r[xs[k]], off + k)
    ensures After(Compose(r, q), xs, off, mark, k + 1)
  {
    forall i | 0 <= i < |xs|
      ensures xs[i] in Compose(r, q) && Compose(r, q)[xs[i]] == q[r[xs[i]]] && (i != k ==> r[xs[i]] != r[xs[k]])
    {
    }
  }

  // --------------------------------------------------------- later siblings

  /** Of the nodes from k on only one that started on block o is on it. */
  ghost predicate Undisturbed(r: map<nat, nat>, xs: seq<nat>, o: nat, k: nat) {
    forall i | k <= i < |xs| :: xs[i] in r && (r[xs[i]] == o <==> xs[i] == o)
  }

  lemma UndisturbedPart(r: map<nat, nat>, xs: seq<nat>, ys: seq<nat>, zs: seq<nat>, o: nat, k: nat)
    requires Undisturbed(r, xs + ys + zs, o, k) && k >= |xs|
    ensures Undisturbed(r, ys, o, k - |xs|)
    ensures k - |xs| < |ys| ==> (xs + ys + zs)[k] == ys[k - |xs|]
  {
    assert forall i | 0 <= i < |ys| :: (xs + ys + zs)[|xs| + i] == ys[i];
  }

  /** The node that comes next has a later sibling in its way exactly when it had one there
      from the beginning. */
  lemma {:induction false} ClashBelow(s: Sys, live: set<nat>, t: nat, r: map<nat, nat>, start: Loc, tr: Tree, i: nat,
                                      off: nat, k: nat)
    requires WellLinked(s, live) && Rep(s.disk, t, MapLoc(r, start), tr) && Foot(MapLoc(r, start)) <= live
    requires i <= |start.kids| && k < |PreorderAll(start.kids[i..])|
    requires Undisturbed(r, PreorderAll(start.kids[i..]), off + k, k)
    ensures PreorderAll(start.kids[i..])[k] in r
    ensures LaterSibling(s, r[PreorderAll(start.kids[i..])[k]], off + k) <==> ClashAllAt(start.kids[i..], off, k)
    decreases start, |start.kids| - i
  {
    hide WellLinked, Rep, Foot, LaterSibling, Undisturbed, ClashAllAt, Nodes, Preorder, MapLoc;
    var f := start.kids[i..];
    var c, rest := f[0], f[1..];
    assert rest == start.kids[i + 1..];
    PreorderSize(c);
    ClashFirst(f, off, k);
    assert PreorderAll(f) == Preorder(c) + PreorderAll(rest);
    if k >= Nodes(c) {
      assert PreorderAll(f) == Preorder(c) + PreorderAll(rest) + [];
      UndisturbedPart(r, Preorder(c), PreorderAll(rest), [], off + k, k);
      ClashBelow(s, live, t, r, start, tr, i + 1, off + Nodes(c), k - Nodes(c));
    } else if k > 0 {
      KidReady(s, live, t, r, start, tr, i);
      PreorderParts(c);
      UndisturbedPart(r, [c.bno], PreorderAll(c.kids), PreorderAll(rest), off + k, k);
      assert c.kids[0..] == c.kids;
      ClashBelow(s, live, t, r, c, tr.kids[i], 0, off + 1, k - 1);
    } else {
      PreorderParts(c);
      ClashHere(s, live, t, r, start, tr, i, off);
    }
  }

  lemma KidReady(s: Sys, live: set<nat>, t: nat, r: map<nat, nat>, start: Loc, tr: Tree, i: nat)
    requires Rep(s.disk, t, MapLoc(r, start), tr) && Foot(MapLoc(r, start)) <= live && i < |start.kids|
    ensures i < |tr.kids| && Rep(s.disk, t, MapLoc(r, start.kids[i]), tr.kids[i])
    ensures Foot(MapLoc(r, start.kids[i])) <= live
  {
    hide Rep, Foot;
    var cur := MapLoc(r, start);
    RepKid(s.disk, t, cur, tr, i);
    FootAt(cur, i);
  }

  lemma PreorderParts(c: Loc)
    ensures Preorder(c) == [c.bno] + PreorderAll(c.kids) && Nodes(c) == 1 + NodesAll(c.kids)
  {
  }

  lemma ClashHere(s: Sys, live: set<nat>, t: nat, r: map<nat, nat>, start: Loc, tr: Tree, i: nat, o: nat)
    requires WellLinked(s, live) && Rep(s.disk, t, MapLoc(r, start), tr) && Foot(MapLoc(r, start)) <= live
    requires i < |start.kids| && Undisturbed(r, PreorderAll(start.kids[i..]), o, 0)
    ensures start.kids[i].bno in r
    ensures LaterSibling(s, r[start.kids[i].bno], o) <==> exists j | i < j < |start.kids| :: start.kids[j].bno == o
    ensures (exists j | i < j < |start.kids| :: start.kids[j].bno == o)
            <==> exists j | 0 < j < |start.kids[i..]| :: start.kids[i..][j].bno == o
  {
    hide WellLinked, Rep, Foot, LaterSibling, Distinct;
    var f := start.kids[i..];
    var cur := MapLoc(r, start);
    forall j | i <= j < |start.kids|
      ensures start.kids[j].bno in r && (r[start.kids[j].bno] == o <==> start.kids[j].bno == o)
      ensures cur.kids[j].bno == r[start.kids[j].bno] && f[j - i] == start.kids[j]
    {
      KidPlace(f, j - i);
    }
    RepKid(s.disk, t, cur, tr, i);
    KidsOfNode(t, s.disk[cur.bno].node, cur, tr);
    OwnBlock(cur);
    LiveBlock(s, live, cur.bno);
    var ks := Kids(s.disk[cur.bno].node);
    assert ks[i] in ks;
    SiblingsOf(s, live, cur.bno, i, o);
    if j :| i < j < |start.kids| && start.kids[j].bno == o {
      assert f[j - i].bno == o;
    }
  }

  /** The later siblings of child i of node p. */
  lemma SiblingsOf(s: Sys, live: set<nat>, p: nat, i: nat, o: nat)
    requires WellLinked(s, live) && p in live && IsTree(s.disk, p) && i < |Kids(s.disk[p].node)|
    ensures LaterSibling(s, Kids(s.disk[p].node)[i], o)
            <==> exists j | i < j < |Kids(s.disk[p].node)| :: Kids(s.disk[p].node)[j] == o
  {
    hide WellLinked, BlockOk;
    LiveBlock(s, live, p);
    var ks := Kids(s.disk[p].node);
    assert ks[i] in ks;
    if j :| i < j < |ks| && ks[j] == o {
      assert ks[j] in ks;
    }
  }

  /** In every state a walk from off reaches, the step it comes to has a later sibling of its
      node in the way exactly when the starting layout says so. */
  lemma ClashExact(s: Sys, live: set<nat>, t: nat, loc: Loc, tr: Tree, off: nat, mark: nat, ps: seq<Placement>)
    requires WellLinked(s, live) && Rep(s.disk, t, loc, tr) && Apart(loc) && Foot(loc) <= live
    requires IsTree(s.disk, loc.bno) && s.disk[loc.bno].node.root
    requires off + Nodes(loc) <= mark && InTurn(s, live, loc, off, mark, ps) && |ps| < Nodes(loc)
    ensures |ps| < |Preorder(loc)| && Preorder(loc)[|ps|] in Total(live, ps)
    ensures LaterSibling(State(s, ps), Total(live, ps)[Preorder(loc)[|ps|]], off + |ps|) <==> ClashAt(loc, off, |ps|)
  {
    hide WellLinked, Moved, Rep, Apart, Foot, InTurn, LaterSibling, Total, State, Preorder, After, Distinct, Nodes;
    var k, r, u, xs := |ps|, Total(live, ps), State(s, ps), Preorder(loc);
    PreorderSize(loc);
    PreorderParts(loc);
    TurnsMove(s, live, t, loc, tr, off, mark, ps);
    OwnBlock(loc);
    MovedInjective(r, s, live, u);
    AfterHas(r, xs, off, mark, k);
    if k == 0 {
      MovedAt(r, s, live, u, loc.bno);
      RootAlone(u, r[loc.bno], off);
    } else {
      MovedLinked(r, s, live, u);
      MovedTree(r, s, live, u, t, loc, tr);
      MapFoot(r, loc);
      assert loc.kids[0..] == loc.kids;
      RestUndisturbed(r, loc.bno, PreorderAll(loc.kids), off, mark, k);
      ClashBelow(u, r.Values, t, r, loc, tr, 0, off + 1, k - 1);
    }
  }

  lemma AfterHas(r: map<nat, nat>, xs: seq<nat>, off: nat, mark: nat, k: nat)
    requires After(r, xs, off, mark, k) && k < |xs|
    ensures xs[k] in r
  {
  }

  /** What waits for its turn does not come to a block below mark. */
  lemma RestUndisturbed(r: map<nat, nat>, top: nat, ys: seq<nat>, off: nat, mark: nat, k: nat)
    requires After(r, [top] + ys, off, mark, k) && 0 < k && off + k < mark
    ensures Undisturbed(r, ys, off + k, k - 1)
  {
    assert forall i | 0 <= i < |ys| :: ([top] + ys)[i + 1] == ys[i];
  }

  lemma RootAlone(s: Sys, a: nat, o: nat)
    requires IsTree(s.disk, a) && s.disk[a].node.root
    ensures !LaterSibling(s, a, o)
  {
  }

  /** So NoClash is the exact condition of the walk. Where it fails there is a node at which
      every walk that gets there goes wrong: whatever block the evicted node goes to, the step
      as written is no consistent renaming. Where it holds no walk meets a later sibling. */
  lemma WalkExact(s: Sys, live: set<nat>, t: nat, loc: Loc, tr: Tree, off: nat, mark: nat) returns (k: nat)
    requires WellLinked(s, live) && Rep(s.disk, t, loc, tr) && Apart(loc) && Foot(loc) <= live
    requires IsTree(s.disk, loc.bno) && s.disk[loc.bno].node.root && off + Nodes(loc) <= mark
    ensures !NoClash(loc, off) ==> k < Nodes(loc) && forall ps, c |
              InTurn(s, live, loc, off, mark, ps) && |ps| == k && c !in Total(live, ps).Values && c != 0 ::
              GoesWrong(s, live, loc, off, ps, c)
    ensures NoClash(loc, off) ==> forall ps | InTurn(s, live, loc, off, mark, ps) && |ps| < Nodes(loc) ::
              KeepsOff(s, live, loc, off, ps)
  {
    hide WellLinked, Rep, Apart, Foot, InTurn, NoClash, ClashAt, GoesWrong, KeepsOff;
    NoClashIs(loc, off);
    k := 0;
    if !NoClash(loc, off) {
      k :| k < Nodes(loc) && ClashAt(loc, off, k);
      forall ps, c | InTurn(s, live, loc, off, mark, ps) && |ps| == k && c !in Total(live, ps).Values && c != 0
        ensures GoesWrong(s, live, loc, off, ps, c)
      {
        ClashExact(s, live, t, loc, tr, off, mark, ps);
        StepFails(s, live, t, loc, tr, off, mark, ps, c);
      }
    } else {
      forall ps | InTurn(s, live, loc, off, mark, ps) && |ps| < Nodes(loc)
        ensures KeepsOff(s, live, loc, off, ps)
      {
        ClashExact(s, live, t, loc, tr, off, mark, ps);
        Keeps(s, live, loc, off, ps);
      }
    }
  }

  /** The step that comes after ps, with the evicted node going to c, is no renaming. */
  ghost predicate GoesWrong(s: Sys, live: set<nat>, loc: Loc, off: nat, ps: seq<Placement>, c: nat) {
    var u, r, k := State(s, ps), Total(live, ps), |ps|;
    && k < |Preorder(loc)| && Preorder(loc)[k] in r
    && var a := r[Preorder(loc)[k]];
       && IsTree(u.disk, a) && IsTree(u.disk, off + k)
       && !Moved(Swap(r.Values, a, off + k, c), u, r.Values, TreeOverTree(u, a, off + k, c))
  }

  /** The step that comes after ps has no later sibling in its way. */
  ghost predicate KeepsOff(s: Sys, live: set<nat>, loc: Loc, off: nat, ps: seq<Placement>) {
    var r, k := Total(live, ps), |ps|;
    k < |Preorder(loc)| && Preorder(loc)[k] in r && !LaterSibling(State(s, ps), r[Preorder(loc)[k]], off + k)
  }

  lemma Keeps(s: Sys, live: set<nat>, loc: Loc, off: nat, ps: seq<Placement>)
    requires |ps| < |Preorder(loc)| && Preorder(loc)[|ps|] in Total(live, ps)
    requires !LaterSibling(State(s, ps), Total(live, ps)[Preorder(loc)[|ps|]], off + |ps|)
    ensures KeepsOff(s, live, loc, off, ps)
  {
  }

  lemma StepFails(s: Sys, live: set<nat>, t: nat, loc: Loc, tr: Tree, off: nat, mark: nat, ps: seq<Placement>, c: nat)
    requires WellLinked(s, live) && Rep(s.disk, t, loc, tr) && Apart(loc) && Foot(loc) <= live
    requires off + Nodes(loc) <= mark && InTurn(s, live, loc, off, mark, ps)
    requires |ps| < |Preorder(loc)| && Preorder(loc)[|ps|] in Total(live, ps)
    requires LaterSibling(State(s, ps), Total(live, ps)[Preorder(loc)[|ps|]], off + |ps|)
    requires c !in Total(live, ps).Values && c != 0
    ensures GoesWrong(s, live, loc, off, ps, c)
  {
    hide WellLinked, Moved, Rep, Apart, Foot, InTurn, LaterSibling, Total, State, TreeOverTree, Swap;
    var r, u, k := Total(live, ps), State(s, ps), |ps|;
    TurnsMove(s, live, t, loc, tr, off, mark, ps);
    MovedLinked(r, s, live, u);
    var a := r[Preorder(loc)[k]];
    SiblingLive(u, r.Values, a, off + k);
    TreeOverTreeExact(u, r.Values, a, off + k, c);
  }

  lemma SiblingLive(s: Sys, live: set<nat>, a: nat, b: nat)
    requires WellLinked(s, live) && a in live && LaterSibling(s, a, b)
    ensures b in live && a != b && IsTree(s.disk, a) && IsTree(s.disk, b)
  {
    hide WellLinked, BlockOk;
    LiveBlock(s, live, a);
    var p := s.disk[a].node.parent;
    LiveBlock(s, live, p);
    var ks := Kids(s.disk[p].node);
    var i, j :| 0 <= i < j < |ks| && ks[i] == a && ks[j] == b;
    assert ks[j] in ks;
  }

  // ------------------------------------------------------------- name lists

  /** The same for a name list. While its first i blocks have been put in place one by one (After,
      which every such step keeps: TurnAfter), what lies on the next wanted block is adjacent to the
      block that is to go there, so that putting it there is no consistent renumbering
      (NameOverExact), exactly if its successor lay there from the beginning. */
  lemma NamesClashExact(u: Sys, live: set<nat>, t: nat, h: Hash, p: DirState, names: seq<nat>, r: map<nat, nat>, i: nat,
                        off: nat, mark: nat)
    requires WellLinked(u, live) && DirAt(u, live, t, h, p) && AllBelow(Foot(p.loc), off) && 0 < off
    requires p.names == MapNames(r, names) && After(r, names, off, mark, i) && i < |names| && off + |names| <= mark
    ensures Adjacent(u, p.names[i], off + i) <==> i + 1 < |names| && names[i + 1] == off + i
  {
    hide WellLinked, DirAt, Foot, Adjacent;
    NextDoorExact(u, live, t, h, p, i, off);
  }
}
