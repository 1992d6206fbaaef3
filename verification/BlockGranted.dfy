/** What a permission check never refuses, or never reports: masks that are already
    granted, and masks that only loosen them. */
module BlockGranted {
  import opened BlockGraph
  import opened BlockPerm
  import opened BlockCheck

  /** Wherever a transaction has settled, nobody writes to a node that cannot be
      written to. */
  lemma WritersWritable(e: Layer, g: Graph, st: Masks, v: Node, u: Node, c: Link)
    requires Settled(e, g, st, v, {}) && Reaches(g, v, u)
    requires c in st && c in g.target && g.target[c] == u && (Write in st[c].perm || WriteUnchanged in st[c].perm)
    ensures e.writable(u)
  {
    assert Consistent(e, g, st, u, {});
    assert c in Users(g, u) - {};
  }

  ghost predicate SameGrants(s0: Masks, s1: Masks)
  {
    s0.Keys == s1.Keys && forall l {:trigger s1[l]} | l in s0 :: Granted(s1[l]) == Granted(s0[l])
  }

  lemma GrantsSettled(e: Layer, g: Graph, s0: Masks, s1: Masks, v: Node)
    requires SameGrants(s0, s1) && Settled(e, g, s0, v, {})
    ensures Settled(e, g, s1, v, {})
  {
    forall u | Reaches(g, v, u) ensures Consistent(e, g, s1, u, {}) {
      assert Consistent(e, g, s0, u, {});
      GrantsConsistent(e, g, s0, s1, u, {});
    }
  }

  lemma GrantsCompatible(g: Graph, s0: Masks, s1: Masks)
    requires SameGrants(s0, s1) && Compatible(g, s0, {})
    ensures Compatible(g, s1, {})
  {
    forall a, b | a in g.target && b in g.target && a != b && g.target[a] == g.target[b] ensures Tolerates(s1, a, b) {
      assert Tolerates(s0, a, b);
    }
  }

  /** Ignored links lead to nodes strictly above. */
  ghost predicate Above(g: Graph, ign: set<Link>, v: Node)
  {
    forall q | q in ign :: q in g.target && g.target[q] != v && Reaches(g, g.target[q], v)
  }

  /** One link, asked for the masks it has: the others tolerate them and the sums are
      those of all users. */
  lemma LinkFits(g: Graph, st: Masks, c: Link, ign: set<Link>)
    requires Checkable(g, st) && c in g.target && Compatible(g, st, {}) && Above(g, ign, g.target[c])
    ensures var others := Users(g, g.target[c]) - (ign + {c});
      && Fits(st, others, st[c].perm, st[c].shared)
      && st[c].perm + Used(st, others) == Used(st, Users(g, g.target[c]))
      && st[c].shared * Allowed(st, others) == Allowed(st, Users(g, g.target[c]))
  {
    var all := Users(g, g.target[c]);
    var others := all - (ign + {c});
    assert all - (ign + {c}) == all - {} - {c};
    forall q | q in others && q in st ensures st[c].perm <= st[q].shared && st[q].perm <= st[c].shared {
      assert Tolerates(st, c, q) && Tolerates(st, q, c);
    }
    CumulativeSplit(g, st, st, c, ign + {c}, {}, st[c].perm, st[c].shared);
    assert all - {} == all;
  }

  lemma {:induction false} LinkAgain(e: Layer, g: Graph, st: Masks, c: Link, ign: set<Link>)
    requires Checkable(g, st) && c in g.target && Compatible(g, st, {}) && Above(g, ign, g.target[c])
    requires Settled(e, g, st, g.target[c], {})
    ensures var r := CheckLink(e, g, st, c, st[c].perm, st[c].shared, ign);
      r.ok && SameGrants(st, r.masks)
    decreases ReachSet(g, g.target[c]), 2
  {
    var v := g.target[c];
    LinkFits(g, st, c, ign);
    NodeAgain(e, g, st, v, ign + {c}, c);
  }

  lemma {:induction false} NodeAgain(e: Layer, g: Graph, st: Masks, v: Node, ign: set<Link>, c: Link)
    requires Checkable(g, st) && v in g.children && Compatible(g, st, {}) && Settled(e, g, st, v, {})
    requires c in g.target && g.target[c] == v && Above(g, ign - {c}, v)
    ensures var r := CheckNode(e, g, st, v, Used(st, Users(g, v)), Allowed(st, Users(g, v)), ign);
      r.ok && SameGrants(st, r.masks)
    decreases ReachSet(g, v), 1
  {
    ReachesSelf(g, v);
    assert Consistent(e, g, st, v, {});
    assert Users(g, v) - {} == Users(g, v);
    if v in e.driver && e.driver[v].Parent? {
      ChildrenAgain(e, g, st, v, Used(st, Users(g, v)), Allowed(st, Users(g, v)), ign, c, 0);
    }
  }

  lemma {:induction false} ChildrenAgain(e: Layer, g: Graph, st: Masks, v: Node, perm: Perms, shared: Perms,
                                         ign: set<Link>, c: Link, i: nat)
    requires Checkable(g, st) && v in g.children && i <= |g.children[v]| && Compatible(g, st, {})
    requires Settled(e, g, st, v, {}) && Derived(e, g, st, v, perm, shared)
    requires c in g.target && g.target[c] == v && Above(g, ign - {c}, v)
    ensures var r := CheckChildren(e, g, st, v, perm, shared, ign, i);
      r.ok && SameGrants(st, r.masks)
    decreases ReachSet(g, v), 0, |g.children[v]| - i
  {
    if i < |g.children[v]| {
      var d := g.children[v][i];
      assert Owns(g, v, d);
      ChildShrinks(g, v, d);
      BelowToo(e, g, st, v, d, ign, c);
      LinkAgain(e, g, st, d, ign);
      var s1 := CheckLink(e, g, st, d, st[d].perm, st[d].shared, ign).masks;
      GrantsSettled(e, g, st, s1, v);
      GrantsCompatible(g, st, s1);
      ChildrenAgain(e, g, s1, v, perm, shared, ign, c, i + 1);
    }
  }

  lemma BelowToo(e: Layer, g: Graph, st: Masks, v: Node, d: Link, ign: set<Link>, c: Link)
    requires Dag(g) && Owns(g, v, d) && Settled(e, g, st, v, {})
    requires c in g.target && g.target[c] == v && Above(g, ign - {c}, v)
    ensures Settled(e, g, st, g.target[d], {}) && Above(g, ign, g.target[d])
  {
    var w := g.target[d];
    assert Edge(g, v, w);
    forall u | Reaches(g, w, u) ensures Consistent(e, g, st, u, {}) {
      EdgeReaches(g, v, w, u);
    }
    IgnoredBelow(g, v, d, ign, c);
  }

  /** Whoever asks for more than the users of a node take so far, or leaves less than
      they share, or does not get along with one of them, is told of a failure. */
  lemma RestrictionReported(e: Layer, g: Graph, st: Masks, c: Link, perm: Perms, shared: Shared, p: Permission, q: Link)
    requires Checkable(g, st) && c in g.target
    ensures var all := Users(g, g.target[c]);
      || (p in perm && forall u | u in all && u in st :: p !in st[u].perm)
      || (p !in shared && forall u | u in all && u in st :: p in st[u].shared)
      || (q in all && q != c && q in st && !(perm <= st[q].shared && st[q].perm <= shared))
      ==> CheckLink(e, g, st, c, perm, shared, {}).tighten
  {
    var v := g.target[c];
    var others := Users(g, v) - ({} + {c});
    if Fits(st, others, perm, shared) {
      assert q in others || q == c || q !in Users(g, v);
      NodeReports(e, g, st, v, perm + Used(st, others), shared * Allowed(st, others), {} + {c}, p);
    }
  }

  lemma NodeReports(e: Layer, g: Graph, st: Masks, v: Node, perm: Perms, shared: Perms, ign: set<Link>, p: Permission)
    requires Checkable(g, st) && v in g.children
    ensures (p in perm && p !in Used(st, Users(g, v))) || (p in Allowed(st, Users(g, v)) && p !in shared) ==>
      CheckNode(e, g, st, v, perm, shared, ign).tighten
  {
    assert p in perm && p !in Used(st, Users(g, v)) ==> p in perm - Used(st, Users(g, v));
    assert p in Allowed(st, Users(g, v)) && p !in shared ==> p in Allowed(st, Users(g, v)) - shared;
  }

  // ---- Loosening -------------------------------------------------------------

  /** Taking less and sharing more from a node never makes its driver take more or
      share less from a child. */
  ghost predicate Monotone(e: Layer)
  {
    forall v, d, p0, s0, p1, s1 {:trigger e.childPerm(v, d, p0, s0), e.childPerm(v, d, p1, s1)}
      | p1 <= p0 && s0 <= s1 ::
      && e.childPerm(v, d, p1, s1).0 <= e.childPerm(v, d, p0, s0).0
      && e.childPerm(v, d, p0, s0).1 <= e.childPerm(v, d, p1, s1).1
  }

  predicate Looser(lp: LinkPerm, perm: Perms, shared: Perms)
  {
    perm <= lp.perm && lp.shared <= shared
  }

  lemma LooserUser(g: Graph, st: Masks, c: Link, perm: Perms, shared: Shared, ign: set<Link>)
    requires Checkable(g, st) && c in g.target && Compatible(g, st, {}) && Above(g, ign, g.target[c])
    requires Looser(st[c], perm, shared)
    ensures var others := Users(g, g.target[c]) - (ign + {c});
      && Fits(st, others, perm, shared)
      && perm + Used(st, others) <= Used(st, Users(g, g.target[c]))
      && Allowed(st, Users(g, g.target[c])) <= shared * Allowed(st, others)
  {
    LinkFits(g, st, c, ign);
  }

  lemma AboveIgnored(g: Graph, ign: set<Link>, v: Node)
    requires Above(g, ign, v)
    ensures IgnoredAbove(g, ign, {}, v) && BaseOutside(g, {}, v)
  {
  }

  /** The layer as it would be if no node had anything against masks: a node that has
      settled in it holds what its driver derives, whether it accepts that or not. */
  ghost function Trusting(e: Layer): Layer
  {
    e.(checkPerm := (v, p, s) => true, writable := v => true)
  }

  lemma SettledTrusting(e: Layer, g: Graph, st: Masks, v: Node)
    requires Settled(e, g, st, v, {})
    ensures Settled(Trusting(e), g, st, v, {})
  {
    forall u | Reaches(g, v, u) ensures Consistent(Trusting(e), g, st, u, {}) {
      assert Consistent(e, g, st, u, {});
    }
  }

  /** With monotone drivers, and all nodes holding what follows from their users, masks that
      only loosen those of a link restrict nobody: if some driver refuses them all
      the same, the caller is not told. */
  lemma {:induction false} LooseningUnreported(e: Layer, g: Graph, st: Masks, c: Link, perm: Perms, shared: Shared,
                                               ign: set<Link>)
    requires Checkable(g, st) && c in g.target && Compatible(g, st, {}) && Above(g, ign, g.target[c]) && Drivers(e, g)
    requires Monotone(e) && Settled(Trusting(e), g, st, g.target[c], {}) && Looser(st[c], perm, shared)
    ensures !CheckLink(e, g, st, c, perm, shared, ign).tighten
    decreases ReachSet(g, g.target[c]), 2
  {
    var v := g.target[c];
    var others := Users(g, v) - (ign + {c});
    LooserUser(g, st, c, perm, shared, ign);
    NodeLoosened(e, g, st, v, perm + Used(st, others), shared * Allowed(st, others), ign + {c}, c);
  }

  lemma {:induction false} NodeLoosened(e: Layer, g: Graph, st: Masks, v: Node, perm: Perms, shared: Perms,
                                        ign: set<Link>, c: Link)
    requires Checkable(g, st) && v in g.children && Compatible(g, st, {}) && Drivers(e, g)
    requires Monotone(e) && Settled(Trusting(e), g, st, v, {})
    requires perm <= Used(st, Users(g, v)) && Allowed(st, Users(g, v)) <= shared
    requires c in g.target && g.target[c] == v && Above(g, ign - {c}, v)
    ensures !CheckNode(e, g, st, v, perm, shared, ign).tighten
    decreases ReachSet(g, v), 1
  {
    if v in e.driver && e.driver[v].Parent? {
      ReachesSelf(g, v);
      assert Consistent(Trusting(e), g, st, v, {});
      assert Users(g, v) - {} == Users(g, v);
      forall j | 0 <= j < |g.children[v]| ensures ChildLooser(e, g, st, v, perm, shared, j) {
        ChildStartsLooser(e, g, st, v, perm, shared, j);
      }
      ChildrenLoosened(e, g, st, v, perm, shared, ign, c, 0);
    }
  }

  /** The masks derived for a child loosen those it has, and all it leads to has settled. */
  ghost predicate ChildLooser(e: Layer, g: Graph, st: Masks, v: Node, perm: Perms, shared: Perms, j: nat)
    requires v in g.children && j < |g.children[v]|
  {
    var d := g.children[v][j];
    && d in st && d in g.target
    && Looser(st[d], e.childPerm(v, d, perm, shared).0, e.childPerm(v, d, perm, shared).1)
    && Settled(Trusting(e), g, st, g.target[d], {})
  }

  lemma ChildStartsLooser(e: Layer, g: Graph, st: Masks, v: Node, perm: Perms, shared: Perms, j: nat)
    requires Checkable(g, st) && v in g.children && j < |g.children[v]|
    requires Monotone(e) && Settled(Trusting(e), g, st, v, {})
    requires perm <= Used(st, Users(g, v)) && Allowed(st, Users(g, v)) <= shared
    requires Derived(e, g, st, v, Used(st, Users(g, v)), Allowed(st, Users(g, v)))
    ensures ChildLooser(e, g, st, v, perm, shared, j)
  {
    var d := g.children[v][j];
    assert Owns(g, v, d);
    var w := g.target[d];
    assert Edge(g, v, w);
    assert Granted(st[d]) == e.childPerm(v, d, Used(st, Users(g, v)), Allowed(st, Users(g, v)));
    forall u | Reaches(g, w, u) ensures Consistent(Trusting(e), g, st, u, {}) {
      EdgeReaches(g, v, w, u);
    }
  }

  lemma {:induction false} ChildrenLoosened(e: Layer, g: Graph, st: Masks, v: Node, perm: Perms, shared: Perms,
                                            ign: set<Link>, c: Link, i: nat)
    requires Checkable(g, st) && v in g.children && i <= |g.children[v]| && Compatible(g, st, {}) && Drivers(e, g)
    requires Monotone(e) && forall j | i <= j < |g.children[v]| :: ChildLooser(e, g, st, v, perm, shared, j)
    requires c in g.target && g.target[c] == v && Above(g, ign - {c}, v)
    ensures !CheckChildren(e, g, st, v, perm, shared, ign, i).tighten
    decreases ReachSet(g, v), 0, |g.children[v]| - i
  {
    if i < |g.children[v]| {
      hide Compatible, Settled, Dag;
      var d := g.children[v][i];
      var (p, s) := e.childPerm(v, d, perm, shared);
      assert ChildLooser(e, g, st, v, perm, shared, i);
      ChildShrinks(g, v, d);
      IgnoredBelow(g, v, d, ign, c);
      LooseningUnreported(e, g, st, d, p, s, ign);
      AboveIgnored(g, ign, g.target[d]);
      LinkChecked(e, g, st, d, p, s, ign, {});
      var r := CheckLink(e, g, st, d, p, s, ign);
      if r.ok {
        forall j | i + 1 <= j < |g.children[v]| ensures ChildLooser(e, g, r.masks, v, perm, shared, j) {
          StaysLooser(e, g, st, r.masks, v, perm, shared, i, j);
        }
        ChildrenLoosened(e, g, r.masks, v, perm, shared, ign, c, i + 1);
      }
    }
  }

  lemma IgnoredBelow(g: Graph, v: Node, d: Link, ign: set<Link>, c: Link)
    requires Dag(g) && Owns(g, v, d) && c in g.target && g.target[c] == v && Above(g, ign - {c}, v)
    ensures Above(g, ign, g.target[d])
  {
    assert Edge(g, v, g.target[d]);
    ReachesSelf(g, v);
    forall q | q in ign ensures q in g.target && g.target[q] != g.target[d] && Reaches(g, g.target[q], g.target[d]) {
      assert q == c || q in ign - {c};
      ReachesEdge(g, g.target[q], v, g.target[d]);
    }
  }

  lemma StaysLooser(e: Layer, g: Graph, s1: Masks, s2: Masks, v: Node, perm: Perms, shared: Perms, i: nat, j: nat)
    requires Dag(g) && v in g.children && i < j < |g.children[v]| && KeepsBut(g, s1, s2, g.children[v][i])
    requires ChildLooser(e, g, s1, v, perm, shared, j) && ChildDone(e, g, s2, v, g.children[v][i], perm, shared, {})
    ensures ChildLooser(e, g, s2, v, perm, shared, j)
  {
    var c, d := g.children[v][i], g.children[v][j];
    assert Owns(g, v, c) && Owns(g, v, d);
    SettledTrusting(e, g, s2, g.target[c]);
    if c != d {
      SettledKept(Trusting(e), g, s1, s2, v, c, d, {});
    }
  }
}
