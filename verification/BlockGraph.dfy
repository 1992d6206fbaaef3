/** The graph of block nodes: nodes own child links, a link points at a node.
    Reachability, acyclicity and what moving links does to them. */
module BlockGraph {

  type Node = nat
  type Link = nat

  /** `children[v]` lists the links node `v` owns; `target[c]` is the node behind
      link `c`.  Links of block backends and jobs are owned by no node. */
  datatype Graph = Graph(children: map<Node, seq<Link>>, target: map<Link, Node>)

  predicate WellFormed(g: Graph)
  {
    && (forall v, c {:trigger c in g.children[v]} | v in g.children && c in g.children[v] :: c in g.target)
    && (forall c {:trigger g.target[c]} | c in g.target :: g.target[c] in g.children)
  }

  predicate Owns(g: Graph, v: Node, c: Link)
  {
    v in g.children && c in g.children[v]
  }

  ghost predicate Edge(g: Graph, u: Node, v: Node)
  {
    exists c :: Owns(g, u, c) && c in g.target && g.target[c] == v
  }

  /** `v` is `n` links below `u`. */
  ghost predicate Descends(g: Graph, u: Node, v: Node, n: nat)
    decreases n
  {
    if n == 0 then u == v else exists w :: Edge(g, u, w) && Descends(g, w, v, n - 1)
  }

  ghost predicate Reaches(g: Graph, u: Node, v: Node)
  {
    exists n: nat :: Descends(g, u, v, n)
  }

  /** No node reaches itself through at least one link. */
  ghost predicate Acyclic(g: Graph)
  {
    forall u, v | Edge(g, u, v) :: !Reaches(g, v, u)
  }

  // ---- Reachability --------------------------------------------------------

  lemma ReachesSelf(g: Graph, u: Node)
    ensures Reaches(g, u, u)
  {
    assert Descends(g, u, u, 0);
  }

  lemma EdgeReaches(g: Graph, u: Node, w: Node, v: Node)
    requires Edge(g, u, w) && Reaches(g, w, v)
    ensures Reaches(g, u, v)
  {
    var n: nat :| Descends(g, w, v, n);
    assert Descends(g, u, v, n + 1);
  }

  lemma {:induction false} DescendsTrans(g: Graph, u: Node, w: Node, v: Node, n: nat)
    requires Descends(g, u, w, n) && Reaches(g, w, v)
    ensures Reaches(g, u, v)
    decreases n
  {
    if n > 0 {
      var x :| Edge(g, u, x) && Descends(g, x, w, n - 1);
      DescendsTrans(g, x, w, v, n - 1);
      EdgeReaches(g, u, x, v);
    }
  }

  lemma ReachesTrans(g: Graph, u: Node, w: Node, v: Node)
    requires Reaches(g, u, w) && Reaches(g, w, v)
    ensures Reaches(g, u, v)
  {
    var n: nat :| Descends(g, u, w, n);
    DescendsTrans(g, u, w, v, n);
  }

  lemma ReachesEdge(g: Graph, u: Node, w: Node, v: Node)
    requires Reaches(g, u, w) && Edge(g, w, v)
    ensures Reaches(g, u, v)
  {
    ReachesSelf(g, v);
    EdgeReaches(g, w, v, v);
    ReachesTrans(g, u, w, v);
  }

  /** A node reaches another one through one of its children. */
  lemma ReachesStep(g: Graph, u: Node, v: Node) returns (w: Node)
    requires Reaches(g, u, v) && u != v
    ensures Edge(g, u, w) && Reaches(g, w, v)
  {
    var n: nat :| Descends(g, u, v, n);
    assert n > 0;
    w :| Edge(g, u, w) && Descends(g, w, v, n - 1);
  }

  /** A set that contains the targets of all its members' links contains
      everything its members reach. */
  lemma {:induction false} ClosedContains(g: Graph, s: set<Node>, u: Node, v: Node, n: nat)
    requires u in s && Descends(g, u, v, n)
    requires forall x, y | x in s && Edge(g, x, y) :: y in s
    ensures v in s
    decreases n
  {
    if n > 0 {
      var w :| Edge(g, u, w) && Descends(g, w, v, n - 1);
      ClosedContains(g, s, w, v, n - 1);
    }
  }

  /** The nodes `u` reaches; acyclicity makes the set shrink along every edge. */
  ghost function ReachSet(g: Graph, u: Node): set<Node>
  {
    set v | v in g.children && Reaches(g, u, v)
  }

  lemma ReachSetShrinks(g: Graph, u: Node, v: Node)
    requires Acyclic(g) && Edge(g, u, v)
    ensures ReachSet(g, v) < ReachSet(g, u)
  {
    ReachesSelf(g, u);
    forall x | x in ReachSet(g, v) ensures x in ReachSet(g, u) {
      EdgeReaches(g, u, v, x);
    }
    assert u in ReachSet(g, u) && u !in ReachSet(g, v);
  }

  // ---- Moving links --------------------------------------------------------

  /** `g` with every link of `moved` pointing at `to`. */
  function Retarget(g: Graph, moved: set<Link>, to: Node): (r: Graph)
  {
    g.(target := map c | c in g.target :: if c in moved then to else g.target[c])
  }

  /** No link of `moved` is owned by a node that `to` reaches. */
  ghost predicate OutsideSubtree(g: Graph, moved: set<Link>, to: Node)
  {
    forall v, c | Owns(g, v, c) && c in moved :: !Reaches(g, to, v)
  }

  lemma EdgeBack(g: Graph, moved: set<Link>, to: Node, u: Node, v: Node)
    requires Edge(Retarget(g, moved, to), u, v)
    ensures Edge(g, u, v) || (v == to && exists c :: c in moved && Owns(g, u, c))
  {
  }

  /** Below `to`, moving links that start outside its subtree changes nothing. */
  lemma {:induction false} BelowTarget(g: Graph, moved: set<Link>, to: Node, u: Node, v: Node, n: nat)
    requires OutsideSubtree(g, moved, to) && Reaches(g, to, u)
    requires Descends(Retarget(g, moved, to), u, v, n)
    ensures Reaches(g, u, v)
    decreases n
  {
    if n == 0 {
      ReachesSelf(g, u);
    } else {
      var g' := Retarget(g, moved, to);
      var w :| Edge(g', u, w) && Descends(g', w, v, n - 1);
      EdgeBack(g, moved, to, u, w);
      ReachesEdge(g, to, u, w);
      BelowTarget(g, moved, to, w, v, n - 1);
      EdgeReaches(g, u, w, v);
    }
  }

  /** ... and what `to` reached it still reaches. */
  lemma {:induction false} BelowKept(g: Graph, moved: set<Link>, to: Node, u: Node, v: Node, n: nat)
    requires OutsideSubtree(g, moved, to) && Reaches(g, to, u) && Descends(g, u, v, n)
    ensures Reaches(Retarget(g, moved, to), u, v)
    decreases n
  {
    var g' := Retarget(g, moved, to);
    if n == 0 {
      ReachesSelf(g', u);
    } else {
      var w :| Edge(g, u, w) && Descends(g, w, v, n - 1);
      var c :| Owns(g, u, c) && c in g.target && g.target[c] == w;
      assert Owns(g', u, c) && g'.target[c] == w;
      ReachesEdge(g, to, u, w);
      BelowKept(g, moved, to, w, v, n - 1);
      EdgeReaches(g', u, w, v);
    }
  }

  /** A descent in the new graph is one of the old graph, or it runs through `to`. */
  lemma {:induction false} DirectOrThrough(g: Graph, moved: set<Link>, to: Node, u: Node, v: Node, n: nat)
    requires OutsideSubtree(g, moved, to) && Descends(Retarget(g, moved, to), u, v, n)
    ensures Reaches(g, u, v) || Reaches(g, to, v)
    decreases n
  {
    if n == 0 {
      ReachesSelf(g, u);
    } else {
      var g' := Retarget(g, moved, to);
      var w :| Edge(g', u, w) && Descends(g', w, v, n - 1);
      EdgeBack(g, moved, to, u, w);
      DirectOrThrough(g, moved, to, w, v, n - 1);
      if Reaches(g, w, v) && Edge(g, u, w) {
        EdgeReaches(g, u, w, v);
      }
    }
  }

  lemma NoCycle(g: Graph, moved: set<Link>, to: Node, u: Node, v: Node)
    requires Acyclic(g) && OutsideSubtree(g, moved, to) && Edge(Retarget(g, moved, to), u, v)
    ensures !Reaches(Retarget(g, moved, to), v, u)
  {
    var g' := Retarget(g, moved, to);
    if Reaches(g', v, u) {
      var n: nat :| Descends(g', v, u, n);
      EdgeBack(g, moved, to, u, v);
      DirectOrThrough(g, moved, to, v, u, n);
      if Edge(g, u, v) && Reaches(g, to, u) {
        ReachesEdge(g, to, u, v);
        BelowTarget(g, moved, to, v, u, n);
      }
    }
  }

  /** From `x`, the first owner of a moved link on the way down to `v` is still reached. */
  lemma {:induction false} FirstMoved(g: Graph, moved: set<Link>, to: Node, x: Node, v: Node, n: nat)
    returns (u: Node, c: Link)
    requires Descends(g, x, v, n) && exists d :: d in moved && Owns(g, v, d)
    ensures c in moved && Owns(g, u, c) && Reaches(Retarget(g, moved, to), x, u)
    decreases n
  {
    var g' := Retarget(g, moved, to);
    if d :| d in moved && Owns(g, x, d) {
      u, c := x, d;
      ReachesSelf(g', x);
    } else {
      var w :| Edge(g, x, w) && Descends(g, w, v, n - 1);
      u, c := FirstMoved(g, moved, to, w, v, n - 1);
      var e :| Owns(g, x, e) && e in g.target && g.target[e] == w;
      assert Owns(g', x, e) && g'.target[e] == w;
      EdgeReaches(g', x, w, u);
    }
  }

  /** Moving any number of links at once keeps the graph acyclic exactly when none
      of them starts at a node the new target already reaches: all checks may run
      on the old graph, before the first link moves. */
  lemma RetargetAcyclic(g: Graph, moved: set<Link>, to: Node)
    requires WellFormed(g) && Acyclic(g)
    ensures Acyclic(Retarget(g, moved, to)) <==> OutsideSubtree(g, moved, to)
  {
    var g' := Retarget(g, moved, to);
    if OutsideSubtree(g, moved, to) {
      forall u, v | Edge(g', u, v) ensures !Reaches(g', v, u) {
        NoCycle(g, moved, to, u, v);
      }
    } else {
      var v, c :| Owns(g, v, c) && c in moved && Reaches(g, to, v);
      var n: nat :| Descends(g, to, v, n);
      var u, d := FirstMoved(g, moved, to, to, v, n);
      assert Owns(g', u, d) && g'.target[d] == to;
      assert Edge(g', u, to);
    }
  }
}
