/** Replacing a node: which links move, and why moving them keeps the graph
    acyclic, users compatible and masks consistent. */
module BlockReplace {
  import opened BlockGraph
  import opened BlockPerm

  /** `c` is found nowhere in the subtree of `to`. */
  ghost predicate NotInSubtree(g: Graph, c: Link, to: Node)
  {
    forall v | Owns(g, v, c) :: !Reaches(g, to, v)
  }

  /** The links from which replacing `from` by `to` takes effect. */
  ghost function Movable(g: Graph, stayAtNode: set<Link>, from: Node, to: Node): set<Link>
  {
    set c | c in g.target && g.target[c] == from && c !in stayAtNode && NotInSubtree(g, c, to)
  }

  lemma MovableOutside(g: Graph, stayAtNode: set<Link>, from: Node, to: Node)
    ensures OutsideSubtree(g, Movable(g, stayAtNode, from, to), to)
  {
  }

  // ---- The searches ----------------------------------------------------------

  /** A popped node whose links were all looked at. */
  ghost predicate Explored(g: Graph, found: set<Node>, c: Link, v: Node)
  {
    v in g.children && forall d | d in g.children[v] :: d != c && d in g.target && g.target[d] in found
  }

  ghost predicate SearchInv(g: Graph, to: Node, c: Link, found: set<Node>, queue: seq<Node>, r: bool)
  {
    && to in found && found <= g.children.Keys
    && (forall v | v in queue :: v in found)
    && (forall v | v in found :: Reaches(g, to, v))
    && (r ==> forall v | v in found && v !in queue :: Explored(g, found, c, v))
    && (!r ==> exists v :: Owns(g, v, c) && Reaches(g, to, v))
  }

  lemma SearchDone(g: Graph, to: Node, c: Link, found: set<Node>, r: bool)
    requires SearchInv(g, to, c, found, [], r)
    ensures r <==> NotInSubtree(g, c, to)
  {
    if r {
      forall x, y | x in found && Edge(g, x, y) ensures y in found {
        assert Explored(g, found, c, x);
        var d :| Owns(g, x, d) && d in g.target && g.target[d] == y;
      }
      forall v | Owns(g, v, c) ensures !Reaches(g, to, v) {
        if Reaches(g, to, v) {
          var n: nat :| Descends(g, to, v, n);
          ClosedContains(g, found, to, v, n);
        }
      }
    }
  }

  /** Breadth-first search for `c` in the subtree of `to`.  Once `c` is found the
      search goes on, but its answer stays. */
  method ShouldUpdateChild(g: Graph, stayAtNode: set<Link>, c: Link, to: Node) returns (r: bool)
    requires WellFormed(g) && to in g.children
    ensures r <==> c !in stayAtNode && NotInSubtree(g, c, to)
  {
    if c in stayAtNode {
      return false;
    }
    r := true;
    var found := {to};
    var queue := [to];
    ReachesSelf(g, to);
    while queue != []
      invariant SearchInv(g, to, c, found, queue, r)
      decreases g.children.Keys - found, |queue|
    {
      var v := queue[0];
      r, found, queue := ExpandNode(g, to, c, v, found, queue, r);
    }
    SearchDone(g, to, c, found, r);
  }

  /** One node of the search: its links in order, up to the sought one. */
  method ExpandNode(g: Graph, to: Node, c: Link, v: Node, found0: set<Node>, queue0: seq<Node>, r0: bool)
    returns (r: bool, found: set<Node>, queue: seq<Node>)
    requires WellFormed(g) && SearchInv(g, to, c, found0, queue0, r0) && queue0 != [] && queue0[0] == v
    ensures SearchInv(g, to, c, found, queue, r)
    ensures (found == found0 && |queue| == |queue0| - 1) || found > found0
  {
    r, found, queue := r0, found0, queue0[1..];
    var links := g.children[v];
    for i := 0 to |links|
      invariant to in found && found0 <= found <= g.children.Keys
      invariant forall x | x in queue :: x in found
      invariant forall x | x in found && x !in found0 :: x in queue
      invariant forall x | x in queue0[1..] :: x in queue
      invariant forall x | x in found :: Reaches(g, to, x)
      invariant found == found0 ==> queue == queue0[1..]
      invariant r == r0 && forall j | 0 <= j < i :: links[j] != c && links[j] in g.target && g.target[links[j]] in found
    {
      var d := links[i];
      if d == c {
        r := false;
        assert Owns(g, v, c);
        return;
      }
      assert Owns(g, v, d);
      if g.target[d] in found {
        continue;
      }
      assert Edge(g, v, g.target[d]);
      ReachesEdge(g, to, v, g.target[d]);
      queue := queue + [g.target[d]];
      found := found + {g.target[d]};
    }
    if r {
      assert queue0 == [v] + queue0[1..];
      forall x | x in found && x !in queue ensures Explored(g, found, c, x) {
        if x != v {
          assert Explored(g, found0, c, x);
        }
      }
    }
  }

  /** Whether `child` is found in the subtree of `bs`, by plain recursion. */
  method RecurseHasChild(g: Graph, bs: Node, child: Node) returns (r: bool)
    requires WellFormed(g) && Acyclic(g) && bs in g.children
    ensures r <==> Reaches(g, bs, child)
    decreases ReachSet(g, bs)
  {
    if bs == child {
      ReachesSelf(g, bs);
      return true;
    }
    var links := g.children[bs];
    for i := 0 to |links|
      invariant forall j | 0 <= j < i :: links[j] in g.target && !Reaches(g, g.target[links[j]], child)
    {
      var c := links[i];
      assert Owns(g, bs, c);
      assert Edge(g, bs, g.target[c]);
      ReachSetShrinks(g, bs, g.target[c]);
      var found := RecurseHasChild(g, g.target[c], child);
      if found {
        EdgeReaches(g, bs, g.target[c], child);
        return true;
      }
    }
    r := false;
    NotThroughChildren(g, bs, child);
  }

  lemma NotThroughChildren(g: Graph, bs: Node, child: Node)
    requires bs != child && forall c | Owns(g, bs, c) && c in g.target :: !Reaches(g, g.target[c], child)
    ensures !Reaches(g, bs, child)
  {
    if Reaches(g, bs, child) {
      var w := ReachesStep(g, bs, child);
    }
  }

  /** Giving `bs` a new backing node keeps the graph acyclic exactly when the new
      node does not reach `bs`. */
  lemma BackingChange(g: Graph, bs: Node, c: Link, backing: Node)
    requires WellFormed(g) && Acyclic(g) && Owns(g, bs, c)
    requires forall u, v, d | Owns(g, u, d) && Owns(g, v, d) :: u == v
    ensures Acyclic(Retarget(g, {c}, backing)) <==> !Reaches(g, backing, bs)
  {
    RetargetAcyclic(g, {c}, backing);
  }

  /** `g` with a new link from `bs` to `backing`. */
  function WithLink(g: Graph, bs: Node, c: Link, backing: Node): Graph
    requires bs in g.children
  {
    Graph(g.children[bs := g.children[bs] + [c]], g.target[c := backing])
  }

  lemma NewEdges(g: Graph, bs: Node, c: Link, backing: Node, u: Node, v: Node)
    requires WellFormed(g) && bs in g.children && c !in g.target
    ensures Edge(WithLink(g, bs, c, backing), u, v) <==> Edge(g, u, v) || (u == bs && v == backing)
  {
    var g' := WithLink(g, bs, c, backing);
    if Edge(g, u, v) {
      var d :| Owns(g, u, d) && d in g.target && g.target[d] == v;
      assert Owns(g', u, d) && g'.target[d] == v;
    }
    if u == bs && v == backing {
      assert Owns(g', u, c) && g'.target[c] == v;
    }
    if Edge(g', u, v) {
      var d :| Owns(g', u, d) && d in g'.target && g'.target[d] == v;
      assert d != c ==> Owns(g, u, d);
    }
  }

  /** A descent with the new link is one without it, or it passes both its ends. */
  lemma {:induction false} NewDescent(g: Graph, bs: Node, c: Link, backing: Node, u: Node, v: Node, n: nat)
    requires WellFormed(g) && bs in g.children && c !in g.target
    requires Descends(WithLink(g, bs, c, backing), u, v, n)
    ensures Reaches(g, u, v) || (Reaches(g, u, bs) && Reaches(g, backing, v))
    decreases n
  {
    if n == 0 {
      ReachesSelf(g, u);
    } else {
      var g' := WithLink(g, bs, c, backing);
      var w :| Edge(g', u, w) && Descends(g', w, v, n - 1);
      NewEdges(g, bs, c, backing, u, w);
      NewDescent(g, bs, c, backing, w, v, n - 1);
      ReachesSelf(g, bs);
      if Edge(g, u, w) {
        if Reaches(g, w, v) { EdgeReaches(g, u, w, v); } else { EdgeReaches(g, u, w, bs); }
      }
    }
  }

  lemma {:induction false} OldDescent(g: Graph, bs: Node, c: Link, backing: Node, u: Node, v: Node, n: nat)
    requires WellFormed(g) && bs in g.children && c !in g.target && Descends(g, u, v, n)
    ensures Reaches(WithLink(g, bs, c, backing), u, v)
    decreases n
  {
    var g' := WithLink(g, bs, c, backing);
    if n == 0 {
      ReachesSelf(g', u);
    } else {
      var w :| Edge(g, u, w) && Descends(g, w, v, n - 1);
      NewEdges(g, bs, c, backing, u, w);
      OldDescent(g, bs, c, backing, w, v, n - 1);
      EdgeReaches(g', u, w, v);
    }
  }

  /** The same for a node that had no backing node. */
  lemma BackingAdded(g: Graph, bs: Node, c: Link, backing: Node)
    requires WellFormed(g) && Acyclic(g) && bs in g.children && c !in g.target
    ensures Acyclic(WithLink(g, bs, c, backing)) <==> !Reaches(g, backing, bs)
  {
    var g' := WithLink(g, bs, c, backing);
    if Reaches(g, backing, bs) {
      var n: nat :| Descends(g, backing, bs, n);
      OldDescent(g, bs, c, backing, backing, bs, n);
      NewEdges(g, bs, c, backing, bs, backing);
    } else {
      forall u, v | Edge(g', u, v) ensures !Reaches(g', v, u) {
        NewAcyclic(g, bs, c, backing, u, v);
      }
    }
  }

  lemma NewAcyclic(g: Graph, bs: Node, c: Link, backing: Node, u: Node, v: Node)
    requires WellFormed(g) && Acyclic(g) && bs in g.children && c !in g.target && !Reaches(g, backing, bs)
    requires Edge(WithLink(g, bs, c, backing), u, v)
    ensures !Reaches(WithLink(g, bs, c, backing), v, u)
  {
    var g' := WithLink(g, bs, c, backing);
    NewEdges(g, bs, c, backing, u, v);
    if Reaches(g', v, u) {
      var n: nat :| Descends(g', v, u, n);
      NewDescent(g, bs, c, backing, v, u, n);
      ReachesSelf(g, bs);
      if Edge(g, u, v) && Reaches(g, v, bs) && Reaches(g, backing, u) {
        EdgeReaches(g, u, v, bs);
        ReachesTrans(g, backing, u, bs);
      }
    }
  }

  // ---- Masks after the move --------------------------------------------------

  function Replaced(e: Layer, moved: set<Link>, to: Node): Layer
  {
    e.(graph := Retarget(e.graph, moved, to))
  }

  lemma DrivenRetarget(e: Layer, moved: set<Link>, to: Node)
    ensures Driven(Replaced(e, moved, to)) == Retarget(Driven(e), moved, to)
  {
  }

  lemma ReplacedOk(e: Layer, moved: set<Link>, to: Node)
    requires LayerOk(e) && to in e.graph.children && OutsideSubtree(e.graph, moved, to)
    ensures LayerOk(Replaced(e, moved, to))
    ensures OutsideSubtree(Driven(e), moved, to)
  {
    var g := e.graph;
    var g' := Retarget(g, moved, to);
    RetargetAcyclic(g, moved, to);
    forall u, v, c | Owns(g', u, c) && Owns(g', v, c) ensures u == v {
      assert Owns(g, u, c) && Owns(g, v, c);
    }
    forall v, c | Owns(Driven(e), v, c) && c in moved ensures !Reaches(Driven(e), to, v) {
      assert Owns(g, v, c);
      if Reaches(Driven(e), to, v) { DrivenReaches(e, to, v); }
    }
  }

  lemma MovedKept(g: Graph, s0: Masks, s1: Masks, moved: set<Link>, to: Node)
    requires Dag(g) && OutsideSubtree(g, moved, to) && KeepsOutside(g, s0, s1, to)
    ensures forall c | c in moved && c in s0 :: !Below(g, to, c) && s1[c] == s0[c]
    ensures forall c | c in Users(g, to) && c in s0 :: s1[c] == s0[c]
  {
  }

  lemma CumulativeJoin(st: Masks, a: set<Link>, b: set<Link>)
    ensures Used(st, a + b) == Used(st, a) + Used(st, b)
    ensures Allowed(st, a + b) == Allowed(st, a) * Allowed(st, b)
  {
  }

  /** With the links moved, `to` agrees with all its users, old and new. */
  lemma TargetDerived(e: Layer, g: Graph, s0: Masks, s1: Masks, moved: set<Link>, to: Node, perm: Perms, shared: Perms)
    requires Dag(g) && moved <= g.target.Keys && OutsideSubtree(g, moved, to) && KeepsOutside(g, s0, s1, to)
    requires perm == Used(s0, moved) && shared == Allowed(s0, moved)
    requires Serves(e, g, s1, to, perm + Used(s0, Users(g, to) - moved), shared * Allowed(s0, Users(g, to) - moved))
    ensures Serves(e, Retarget(g, moved, to), s1, to,
                    Used(s1, Users(Retarget(g, moved, to), to)), Allowed(s1, Users(Retarget(g, moved, to), to)))
  {
    var g' := Retarget(g, moved, to);
    assert Users(g', to) == moved + (Users(g, to) - moved);
    MovedKept(g, s0, s1, moved, to);
    SameMasksSame(s0, s1, moved);
    SameMasksSame(s0, s1, Users(g, to) - moved);
    CumulativeJoin(s1, moved, Users(g, to) - moved);
    forall c | Owns(g', to, c) && c in s1 ensures Owns(g, to, c) {}
  }

  /** ... and every node below it agrees with the users it has left. */
  lemma BelowSettled(e: Layer, g: Graph, st: Masks, moved: set<Link>, to: Node)
    requires moved <= g.target.Keys && OutsideSubtree(g, moved, to) && SettledBelow(e, g, st, to, moved)
    ensures SettledBelow(e, Retarget(g, moved, to), st, to, {})
  {
    var g' := Retarget(g, moved, to);
    forall u | u != to && Reaches(g', to, u) ensures Consistent(e, g', st, u, {}) {
      var n: nat :| Descends(g', to, u, n);
      ReachesSelf(g, to);
      BelowTarget(g, moved, to, to, u, n);
      assert Consistent(e, g, st, u, moved);
      assert Users(g', u) - {} == Users(g, u) - moved;
      forall c | Owns(g', u, c) && c in st ensures Owns(g, u, c) {}
    }
  }

  lemma UsersFit(st: Masks, users: set<Link>, moved: set<Link>, a: Link, b: Link)
    requires Fits(st, users, Used(st, moved), Allowed(st, moved))
    requires a in moved && b in users && a in st && b in st
    ensures Tolerates(st, a, b) && Tolerates(st, b, a)
  {
  }

  /** Users stay compatible: moved links with each other, with the users `to` had,
      and everyone else as before. */
  lemma ReplaceCompatible(g: Graph, s0: Masks, s1: Masks, moved: set<Link>, from: Node, to: Node)
    requires Dag(g) && moved <= g.target.Keys == s0.Keys && OutsideSubtree(g, moved, to)
    requires forall c | c in moved :: g.target[c] == from
    requires Compatible(g, s0, {}) && Checked(g, s0, s1, to, moved)
    requires Fits(s0, Users(g, to) - moved, Used(s0, moved), Allowed(s0, moved))
    ensures Compatible(Retarget(g, moved, to), s1, {})
  {
    var g' := Retarget(g, moved, to);
    assert Compatible(g, s0, moved) by {
      forall a, b | a in g.target && b in g.target && a != b && g.target[a] == g.target[b]
        ensures Tolerates(s0, a, b) { assert Tolerates(s0, a, b); }
    }
    MovedKept(g, s0, s1, moved, to);
    forall a, b | a in g'.target && b in g'.target && a != b && g'.target[a] == g'.target[b]
      ensures Tolerates(s1, a, b)
    {
      if a in moved && b in moved {
        assert Tolerates(s0, a, b);
      } else if a in moved {
        assert b in Users(g, to) - moved;
        UsersFit(s0, Users(g, to) - moved, moved, a, b);
      } else if b in moved {
        assert a in Users(g, to) - moved;
        UsersFit(s0, Users(g, to) - moved, moved, b, a);
      } else {
        assert Tolerates(s1, a, b);
      }
    }
  }

  lemma RetargetNone(g: Graph, to: Node)
    ensures Retarget(g, {}, to) == g
  {
  }

  lemma RetargetMore(g: Graph, moved: set<Link>, c: Link, to: Node)
    requires c in g.target
    ensures Retarget(g, moved, to).(target := Retarget(g, moved, to).target[c := to]) == Retarget(g, moved + {c}, to)
  {
  }
}
