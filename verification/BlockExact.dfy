/** When a permission check succeeds: on subtrees without shared nodes, exactly when
    masks exist that the whole subtree can live with. */
module BlockExact {
  import opened BlockGraph
  import opened BlockPerm
  import opened BlockCheck
  import opened BlockReplace

  // ---- Nodes without children ----------------------------------------------------

  /** A node that leads nowhere grants what fits its other users and what it accepts
      together with theirs. */
  lemma LeafExact(e: Layer, g: Graph, st: Masks, v: Node, perm: Perms, shared: Perms, ign: set<Link>)
    requires Checkable(g, st) && v in g.children && g.children[v] == []
    ensures var others := Users(g, v) - ign;
      CheckUser(e, g, st, v, perm, shared, ign).ok <==>
        Fits(st, others, perm, shared) && Accepts(e, v, perm + Used(st, others), shared * Allowed(st, others))
  {
    var others := Users(g, v) - ign;
    LastChild(e, g, st, v, perm + Used(st, others), shared * Allowed(st, others), ign);
  }

  // ---- Trees -----------------------------------------------------------------------

  /** Below `v`, no two links lead to the same node. */
  ghost predicate Tree(g: Graph, v: Node)
  {
    forall a, b {:trigger Below(g, v, a), Below(g, v, b)}
      | Below(g, v, a) && Below(g, v, b) && a != b && a in g.target && b in g.target :: g.target[a] != g.target[b]
  }

  /** The links that are not below `v` but lead to nodes below it hold the same. */
  ghost predicate Agree(g: Graph, s0: Masks, s1: Masks, v: Node, base: set<Link>)
  {
    forall q {:trigger Below(g, v, q)}
      | q in g.target && q in s0 && q in s1 && q !in base && g.target[q] != v && Reaches(g, v, g.target[q])
        && !Below(g, v, q)
      :: Granted(s0[q]) == Granted(s1[q])
  }

  /** A node below `v` has a link below `v` that leads to it. */
  lemma {:induction false} LastLink(g: Graph, v: Node, x: Node) returns (l: Link)
    requires Dag(g) && Reaches(g, v, x) && x != v
    ensures Below(g, v, l) && l in g.target && g.target[l] == x
    decreases ReachSet(g, v)
  {
    var w := ReachesStep(g, v, x);
    var c :| Owns(g, v, c) && c in g.target && g.target[c] == w;
    if w == x {
      l := c;
      BelowOwn(g, v, c);
    } else {
      ReachSetShrinks(g, v, w);
      l := LastLink(g, w, x);
      BelowChild(g, v, c, l);
    }
  }

  lemma TreeChild(g: Graph, v: Node, c: Link)
    requires Dag(g) && Tree(g, v) && Owns(g, v, c)
    ensures Tree(g, g.target[c])
  {
    var w := g.target[c];
    forall a, b | Below(g, w, a) && Below(g, w, b) && a != b && a in g.target && b in g.target
      ensures g.target[a] != g.target[b]
    {
      BelowChild(g, v, c, a);
      BelowChild(g, v, c, b);
    }
  }

  /** In a tree, what other links hold at the nodes below a child is settled above it. */
  lemma AgreeChild(g: Graph, s0: Masks, s1: Masks, v: Node, c: Link, base: set<Link>)
    requires Dag(g) && Tree(g, v) && Owns(g, v, c) && Agree(g, s0, s1, v, base)
    ensures Agree(g, s0, s1, g.target[c], base)
  {
    var w := g.target[c];
    assert Edge(g, v, w);
    forall q | q in g.target && q in s0 && q in s1 && q !in base && g.target[q] != w && Reaches(g, w, g.target[q])
               && !Below(g, w, q)
      ensures Granted(s0[q]) == Granted(s1[q])
    {
      EdgeReaches(g, v, w, g.target[q]);
      var l := LastLink(g, w, g.target[q]);
      BelowChild(g, v, c, l);
      assert !Below(g, v, q);
    }
  }

  /** The other users of a child's node hold what they should. */
  lemma OthersAgree(g: Graph, s0: Masks, s1: Masks, v: Node, c: Link, base: set<Link>)
    requires Dag(g) && Tree(g, v) && Owns(g, v, c) && Agree(g, s0, s1, v, base)
    ensures forall q | q in Users(g, g.target[c]) - base - {c} && q in s0 && q in s1 :: Granted(s0[q]) == Granted(s1[q])
  {
    var w := g.target[c];
    assert Edge(g, v, w);
    ReachesSelf(g, w);
    EdgeReaches(g, v, w, w);
    BelowOwn(g, v, c);
    forall q | q in Users(g, w) - base - {c} && q in s0 && q in s1 ensures Granted(s0[q]) == Granted(s1[q]) {
      assert !Below(g, v, q);
      ReachesSelf(g, v);
    }
  }

  /** One link of a tree whose masks are those of `star`: the other users tolerate them,
      and the sums are those of `star`. */
  lemma LinkFitsStar(g: Graph, cur: Masks, star: Masks, c: Link, base: set<Link>)
    requires Checkable(g, cur) && star.Keys == cur.Keys && c in g.target && c !in base && Compatible(g, star, base)
    requires forall q | q in Users(g, g.target[c]) - base - {c} && q in cur :: Granted(cur[q]) == Granted(star[q])
    ensures var others := Users(g, g.target[c]) - base - {c};
      var all := Users(g, g.target[c]) - base;
      && Fits(cur, others, star[c].perm, star[c].shared)
      && star[c].perm + Used(cur, others) == Used(star, all)
      && star[c].shared * Allowed(cur, others) == Allowed(star, all)
  {
    var others := Users(g, g.target[c]) - base - {c};
    var all := Users(g, g.target[c]) - base;
    forall q | q in others && q in cur ensures star[c].perm <= cur[q].shared && cur[q].perm <= star[c].shared {
      assert Tolerates(star, c, q) && Tolerates(star, q, c);
    }
    SameMasksSame(star, cur, others);
    assert all == others + {c};
    OneMore(star, others, c);
  }

  lemma OneMore(st: Masks, users: set<Link>, c: Link)
    requires c in st
    ensures Used(st, users + {c}) == st[c].perm + Used(st, users)
    ensures Allowed(st, users + {c}) == st[c].shared * Allowed(st, users)
  {
  }

  /** The masks of `star` are what a check of `v` has to arrive at. */
  ghost predicate Goal(e: Layer, g: Graph, cur: Masks, star: Masks, v: Node, base: set<Link>)
  {
    && star.Keys == cur.Keys && Compatible(g, star, base) && SettledBelow(e, g, star, v, base)
    && Tree(g, v) && Agree(g, cur, star, v, base)
  }

  lemma GoalChild(e: Layer, g: Graph, cur: Masks, star: Masks, v: Node, c: Link, base: set<Link>)
    requires Dag(g) && Goal(e, g, cur, star, v, base) && Owns(g, v, c)
    ensures Goal(e, g, cur, star, g.target[c], base) && Consistent(e, g, star, g.target[c], base)
  {
    var w := g.target[c];
    assert Edge(g, v, w);
    ReachesSelf(g, w);
    TreeChild(g, v, c);
    AgreeChild(g, cur, star, v, c, base);
    forall u | Reaches(g, w, u) ensures Consistent(e, g, star, u, base) {
      EdgeReaches(g, v, w, u);
      assert u != v;
    }
  }

  /** A check that changes links below `v` only leaves the goal where it was. */
  lemma GoalKept(e: Layer, g: Graph, cur: Masks, next: Masks, star: Masks, v: Node, base: set<Link>)
    requires Goal(e, g, cur, star, v, base) && KeepsOutside(g, cur, next, v)
    ensures Goal(e, g, next, star, v, base)
  {
  }

  /** If masks exist that fit, the check of a tree finds its way to them. */
  lemma {:induction false} NodeComplete(e: Layer, g: Graph, cur: Masks, star: Masks, v: Node, perm: Perms,
                                        shared: Perms, ign: set<Link>, base: set<Link>)
    requires Checkable(g, cur) && v in g.children && Drivers(e, g)
    requires IgnoredAbove(g, ign, base, v) && BaseOutside(g, base, v)
    requires Goal(e, g, cur, star, v, base) && Serves(e, g, star, v, perm, shared)
    ensures CheckNode(e, g, cur, v, perm, shared, ign).ok
    decreases ReachSet(g, v), 1, 0
  {
    hide Dag, Goal, Derived;
    if v in e.driver && e.driver[v].Parent? {
      ChildrenComplete(e, g, cur, star, v, perm, shared, ign, base, 0);
    }
  }

  lemma {:induction false} ChildrenComplete(e: Layer, g: Graph, cur: Masks, star: Masks, v: Node, perm: Perms,
                                            shared: Perms, ign: set<Link>, base: set<Link>, i: nat)
    requires Checkable(g, cur) && v in g.children && i <= |g.children[v]| && Drivers(e, g)
    requires IgnoredAbove(g, ign, base, v) && BaseOutside(g, base, v)
    requires Goal(e, g, cur, star, v, base) && Derived(e, g, star, v, perm, shared)
    ensures CheckChildren(e, g, cur, v, perm, shared, ign, i).ok
    decreases ReachSet(g, v), 0, |g.children[v]| - i
  {
    if i < |g.children[v]| {
      var c := g.children[v][i];
      var (p, s) := e.childPerm(v, c, perm, shared);
      assert Owns(g, v, c);
      ChildReady(g, v, c, ign, base);
      assert c in star && Granted(star[c]) == (p, s);
      LinkComplete(e, g, cur, star, v, c, ign, base);
      LinkChecked(e, g, cur, c, p, s, ign, base);
      var next := CheckLink(e, g, cur, c, p, s, ign).masks;
      ChildStep(g, cur, cur, next, v, c, base);
      GoalKept(e, g, cur, next, star, v, base);
      ChildrenComplete(e, g, next, star, v, perm, shared, ign, base, i + 1);
    }
  }

  lemma {:induction false} LinkComplete(e: Layer, g: Graph, cur: Masks, star: Masks, v: Node, c: Link,
                                        ign: set<Link>, base: set<Link>)
    requires Checkable(g, cur) && Owns(g, v, c) && c in g.target && c !in base && Drivers(e, g)
    requires IgnoredAbove(g, ign, base, g.target[c]) && BaseOutside(g, base, g.target[c])
    requires forall q | q in ign && q !in base :: g.target[q] != g.target[c]
    requires Goal(e, g, cur, star, v, base) && c in star
    ensures CheckLink(e, g, cur, c, star[c].perm, star[c].shared, ign).ok
    decreases ReachSet(g, g.target[c]), 2
  {
    var w := g.target[c];
    OthersAgree(g, cur, star, v, c, base);
    LinkFitsStar(g, cur, star, c, base);
    assert Users(g, w) - (ign + {c}) == Users(g, w) - base - {c};
    GoalChild(e, g, cur, star, v, c, base);
    IgnoreAlso(g, ign, base, c);
    NodeComplete(e, g, cur, star, w, Used(star, Users(g, w) - base), Allowed(star, Users(g, w) - base), ign + {c},
                 base);
  }

  // ---- Exactly when ------------------------------------------------------------------

  /** Masks that give `c` what is asked for and everything behind it what follows, and
      leave all other links as they are. */
  ghost predicate Fulfils(e: Layer, g: Graph, st: Masks, star: Masks, c: Link, perm: Perms, shared: Perms)
    requires c in g.target
  {
    && c in st && KeepsBut(g, st, star, c) && Granted(star[c]) == (perm, shared)
    && Compatible(g, star, {}) && Settled(e, g, star, g.target[c], {})
  }

  ghost predicate Grantable(e: Layer, g: Graph, st: Masks, c: Link, perm: Perms, shared: Perms)
    requires c in g.target
  {
    exists star :: Fulfils(e, g, st, star, c, perm, shared)
  }

  /** What a check grants can be granted, on any acyclic graph; on a tree, what can be
      granted is. */
  lemma LinkExact(e: Layer, g: Graph, st: Masks, c: Link, perm: Perms, shared: Shared)
    requires Checkable(g, st) && c in g.target && Drivers(e, g) && Compatible(g, st, {})
    ensures CheckLink(e, g, st, c, perm, shared, {}).ok ==> Grantable(e, g, st, c, perm, shared)
    ensures Tree(g, g.target[c]) && Grantable(e, g, st, c, perm, shared) ==>
      CheckLink(e, g, st, c, perm, shared, {}).ok
  {
    LinkChecked(e, g, st, c, perm, shared, {}, {});
    var r := CheckLink(e, g, st, c, perm, shared, {});
    if r.ok {
      assert Fulfils(e, g, st, r.masks, c, perm, shared);
    }
    if Tree(g, g.target[c]) && Grantable(e, g, st, c, perm, shared) {
      var star :| Fulfils(e, g, st, star, c, perm, shared);
      RootComplete(e, g, st, star, c);
    }
  }

  lemma RootComplete(e: Layer, g: Graph, st: Masks, star: Masks, c: Link)
    requires Checkable(g, st) && c in g.target && Drivers(e, g) && Tree(g, g.target[c]) && c in star
    requires Fulfils(e, g, st, star, c, star[c].perm, star[c].shared)
    ensures CheckLink(e, g, st, c, star[c].perm, star[c].shared, {}).ok
  {
    var w := g.target[c];
    RootGoal(e, g, st, star, c);
    LinkFitsStar(g, st, star, c, {});
    assert {} + {c} == {c} && Users(g, w) - {c} == Users(g, w) - {} - {c};
    IgnoreAlso(g, {}, {}, c);
    hide Goal, Serves, Compatible, KeepsBut, Settled;
    NodeComplete(e, g, st, star, w, Used(star, Users(g, w) - {}), Allowed(star, Users(g, w) - {}), {c}, {});
  }

  lemma RootGoal(e: Layer, g: Graph, st: Masks, star: Masks, c: Link)
    requires Checkable(g, st) && c in g.target && Tree(g, g.target[c]) && c in star
    requires Fulfils(e, g, st, star, c, star[c].perm, star[c].shared)
    ensures Goal(e, g, st, star, g.target[c], {}) && Consistent(e, g, star, g.target[c], {})
    ensures forall q | q in Users(g, g.target[c]) - {} - {c} && q in st :: Granted(st[q]) == Granted(star[q])
    ensures BaseOutside(g, {}, g.target[c]) && IgnoredAbove(g, {}, {}, g.target[c])
  {
    var w := g.target[c];
    forall q | q in Users(g, w) - {} - {c} && q in st ensures Granted(st[q]) == Granted(star[q]) {
      NotBelow(g, w, q);
    }
    NotBelow(g, w, c);
    ReachesSelf(g, w);
  }

  /** The same for new users that are not links yet: the check ignores the links that
      are to become them. */
  lemma UserExact(e: Layer, g: Graph, st: Masks, star: Masks, v: Node, perm: Perms, shared: Perms, base: set<Link>)
    requires Checkable(g, st) && v in g.children && Drivers(e, g) && Tree(g, v)
    requires BaseOutside(g, base, v) && KeepsOutside(g, st, star, v)
    requires Compatible(g, star, base) && SettledBelow(e, g, star, v, base)
    requires Fits(st, Users(g, v) - base, perm, shared)
    requires Serves(e, g, star, v, perm + Used(st, Users(g, v) - base), shared * Allowed(st, Users(g, v) - base))
    ensures CheckUser(e, g, st, v, perm, shared, base).ok
  {
    NodeComplete(e, g, st, star, v, perm + Used(st, Users(g, v) - base), shared * Allowed(st, Users(g, v) - base),
                 base, base);
  }

  // ---- Shared nodes ----------------------------------------------------------------------

  /** A node that takes the permission to write through one of its two links, and does
      not share it, depending on whether its own user writes. */
  function SwitchChild(v: Node, l: Link, perm: Perms, shared: Perms): (Perms, Shared)
  {
    if Write in perm <==> l == 11 then ({Write}, {WriteUnchanged}) else ({}, ALL)
  }

  const SWITCH := Layer(Graph(map[0 := [11, 12], 1 := []], map[10 := 0, 11 := 1, 12 := 1]),
                        map[0 := Parent, 1 := Protocol], SwitchChild, (v, p, s) => true, v => true)

  function SwitchMasks(writes: bool): Masks
  {
    map[10 := LinkPerm(if writes then {Write} else {}, ALL, NoBackup),
        11 := if writes then LinkPerm({Write}, {WriteUnchanged}, NoBackup) else LinkPerm({}, ALL, NoBackup),
        12 := if writes then LinkPerm({}, ALL, NoBackup) else LinkPerm({Write}, {WriteUnchanged}, NoBackup)]
  }

  /** Where two links below lead to the same node the check may refuse what could be
      granted: each link is compared with what the other one has before its turn. */
  lemma SharedNodeRefused()
    ensures LayerOk(SWITCH) && SwitchMasks(false).Keys == SWITCH.graph.target.Keys
    ensures Compatible(SWITCH.graph, SwitchMasks(false), {}) && Settled(SWITCH, SWITCH.graph, SwitchMasks(false), 0, {})
    ensures Grantable(SWITCH, SWITCH.graph, SwitchMasks(false), 10, {Write}, ALL)
    ensures !CheckLink(SWITCH, SWITCH.graph, SwitchMasks(false), 10, {Write}, ALL, {}).ok
  {
    hide CheckLink, Grantable, Settled, Compatible;
    SwitchDag();
    SwitchSettled(false);
    SwitchGrantable();
    SwitchRefused();
  }

  lemma SwitchGrantable()
    ensures Grantable(SWITCH, SWITCH.graph, SwitchMasks(false), 10, {Write}, ALL)
  {
    SwitchDag();
    SwitchSettled(true);
    var g := SWITCH.graph;
    BelowOwn(g, 0, 11);
    BelowOwn(g, 0, 12);
    hide Settled, Compatible;
    assert KeepsBut(g, SwitchMasks(false), SwitchMasks(true), 10);
    assert Fulfils(SWITCH, g, SwitchMasks(false), SwitchMasks(true), 10, {Write}, ALL);
  }

  lemma SwitchDag()
    ensures LayerOk(SWITCH) && Dag(SWITCH.graph)
    ensures forall x :: Reaches(SWITCH.graph, 1, x) ==> x == 1
    ensures forall x :: Reaches(SWITCH.graph, 0, x) ==> x == 0 || x == 1
  {
    var g := SWITCH.graph;
    forall u, v | Edge(g, u, v) ensures u == 0 && v == 1 {}
    forall x | Reaches(g, 1, x) ensures x == 1 {
      var n: nat :| Descends(g, 1, x, n);
      assert forall w :: !Edge(g, 1, w);
    }
    forall x | Reaches(g, 0, x) ensures x == 0 || x == 1 {
      if x != 0 { var w := ReachesStep(g, 0, x); }
    }
  }

  lemma SwitchSettled(writes: bool)
    ensures Compatible(SWITCH.graph, SwitchMasks(writes), {})
    ensures Settled(SWITCH, SWITCH.graph, SwitchMasks(writes), 0, {})
  {
    SwitchDag();
    var g, st := SWITCH.graph, SwitchMasks(writes);
    forall u | Reaches(g, 0, u) ensures Consistent(SWITCH, g, st, u, {}) {
      if u == 0 {
        assert Users(g, 0) - {} == {10};
        assert Used(st, {10}) == st[10].perm;
      }
    }
  }

  lemma SwitchRefused()
    ensures Dag(SWITCH.graph)
    ensures !CheckLink(SWITCH, SWITCH.graph, SwitchMasks(false), 10, {Write}, ALL, {}).ok
  {
    SwitchDag();
    var g, st := SWITCH.graph, SwitchMasks(false);
    var ign := {} + {10};
    assert Users(g, 0) - ign == {};
    FirstRefused({Write} + Used(st, {}), ALL * Allowed(st, {}), ign);
  }

  lemma FirstRefused(perm: Perms, shared: Perms, ign: set<Link>)
    requires Write in perm && ign == {10}
    ensures Dag(SWITCH.graph)
    ensures !CheckChildren(SWITCH, SWITCH.graph, SwitchMasks(false), 0, perm, shared, ign, 0).ok
  {
    SwitchDag();
    var g, st := SWITCH.graph, SwitchMasks(false);
    assert 12 in Users(g, 1) - (ign + {11}) && !({Write} <= st[12].shared);
    assert !Fits(st, Users(g, 1) - (ign + {11}), {Write}, {WriteUnchanged});
    assert !CheckLink(SWITCH, g, st, 11, {Write}, {WriteUnchanged}, ign).ok;
    NextChild(SWITCH, g, st, 0, perm, shared, ign, 0);
  }

  // ---- Replacing a node ----------------------------------------------------------------

  /** Masks with which the links can point at `to`: only links below it change. */
  ghost predicate MoveFulfils(e: Layer, g: Graph, st: Masks, star: Masks, moved: set<Link>, to: Node)
  {
    && KeepsOutside(g, st, star, to) && Compatible(Retarget(g, moved, to), star, {})
    && Settled(Replaced(e, moved, to), Retarget(g, moved, to), star, to, {})
  }

  ghost predicate MoveFits(e: Layer, g: Graph, st: Masks, moved: set<Link>, to: Node)
  {
    exists star :: MoveFulfils(e, g, st, star, moved, to)
  }

  /** If such masks exist, the check of a tree that comes before the move succeeds. */
  lemma MoveComplete(e: Layer, g: Graph, st: Masks, moved: set<Link>, to: Node)
    requires Checkable(g, st) && to in g.children && Drivers(e, g) && Tree(g, to)
    requires moved <= g.target.Keys && OutsideSubtree(g, moved, to) && MoveFits(e, g, st, moved, to)
    ensures CheckUser(e, g, st, to, Used(st, moved), Allowed(st, moved), moved).ok
  {
    var star :| MoveFulfils(e, g, st, star, moved, to);
    MoveFit(e, g, st, star, moved, to);
    MoveServes(e, g, st, star, moved, to);
    MoveSettled(e, g, st, star, moved, to);
    UserExact(e, g, st, star, to, Used(st, moved), Allowed(st, moved), moved);
  }

  lemma MoveFit(e: Layer, g: Graph, st: Masks, star: Masks, moved: set<Link>, to: Node)
    requires Checkable(g, st) && moved <= g.target.Keys && OutsideSubtree(g, moved, to)
    requires MoveFulfils(e, g, st, star, moved, to)
    ensures Fits(st, Users(g, to) - moved, Used(st, moved), Allowed(st, moved))
    ensures Compatible(g, star, moved)
  {
    var g' := Retarget(g, moved, to);
    MovedKept(g, st, star, moved, to);
    forall q | q in Users(g, to) - moved && q in st
      ensures Used(st, moved) <= st[q].shared && st[q].perm <= Allowed(st, moved)
    {
      forall m | m in moved ensures st[m].perm <= st[q].shared && st[q].perm <= st[m].shared {
        assert Tolerates(star, m, q) && Tolerates(star, q, m);
      }
    }
    forall a, b | a in g.target && b in g.target && a != b && g.target[a] == g.target[b] && a !in moved && b !in moved
      ensures Tolerates(star, a, b)
    {
      assert g'.target[a] == g'.target[b];
    }
  }

  lemma MoveServes(e: Layer, g: Graph, st: Masks, star: Masks, moved: set<Link>, to: Node)
    requires Checkable(g, st) && moved <= g.target.Keys && OutsideSubtree(g, moved, to)
    requires MoveFulfils(e, g, st, star, moved, to)
    ensures Serves(e, g, star, to, Used(st, moved) + Used(st, Users(g, to) - moved),
                   Allowed(st, moved) * Allowed(st, Users(g, to) - moved))
  {
    var g' := Retarget(g, moved, to);
    ReachesSelf(g', to);
    assert Consistent(Replaced(e, moved, to), g', star, to, {});
    assert Users(g', to) - {} == moved + (Users(g, to) - moved);
    MovedKept(g, st, star, moved, to);
    SameMasksSame(st, star, moved);
    SameMasksSame(st, star, Users(g, to) - moved);
    CumulativeJoin(star, moved, Users(g, to) - moved);
    forall c | Owns(g, to, c) ensures Owns(g', to, c) {}
  }

  lemma MoveSettled(e: Layer, g: Graph, st: Masks, star: Masks, moved: set<Link>, to: Node)
    requires Checkable(g, st) && moved <= g.target.Keys && OutsideSubtree(g, moved, to)
    requires MoveFulfils(e, g, st, star, moved, to)
    ensures SettledBelow(e, g, star, to, moved) && BaseOutside(g, moved, to)
  {
    var g' := Retarget(g, moved, to);
    ReachesSelf(g, to);
    forall u | u != to && Reaches(g, to, u) ensures Consistent(e, g, star, u, moved) {
      var n: nat :| Descends(g, to, u, n);
      BelowKept(g, moved, to, to, u, n);
      assert Consistent(Replaced(e, moved, to), g', star, u, {});
      assert Users(g', u) - {} == Users(g, u) - moved;
      forall c | Owns(g, u, c) ensures Owns(g', u, c) {}
    }
  }
}
