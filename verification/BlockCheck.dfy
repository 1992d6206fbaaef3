/** The permission check as a function of the masks, and what it promises on every
    acyclic graph. */
module BlockCheck {
  import opened BlockGraph
  import opened BlockPerm

  lemma ChildShrinks(g: Graph, v: Node, c: Link)
    requires Dag(g) && Owns(g, v, c)
    ensures c in g.target && ReachSet(g, g.target[c]) < ReachSet(g, v)
  {
    assert Edge(g, v, g.target[c]);
    ReachSetShrinks(g, v, g.target[c]);
  }

  // ---- The check -------------------------------------------------------------

  /** Whether the masks are granted, whether they restrict anyone more than before,
      and the masks at the end of the check. */
  datatype Verdict = Verdict(ok: bool, tighten: bool, masks: Masks)

  ghost predicate Checkable(g: Graph, st: Masks)
  {
    Dag(g) && st.Keys == g.target.Keys
  }

  /** More is taken from the node, or less is left to others, than now. */
  predicate Restricts(perm: Perms, shared: Perms, currentPerm: Perms, currentShared: Perms)
  {
    perm - currentPerm != {} || currentShared - shared != {}
  }

  ghost predicate Tightens(g: Graph, st: Masks, v: Node, perm: Perms, shared: Perms)
  {
    Restricts(perm, shared, Used(st, Users(g, v)), Allowed(st, Users(g, v)))
  }

  function Tightened(r: Verdict, t: bool): Verdict
  {
    r.(tighten := t || r.tighten)
  }

  /** A node accepts masks that its image can be opened for; a driver with its own
      check decides, one with children asks them in turn. */
  ghost function CheckNode(e: Layer, g: Graph, st: Masks, v: Node, perm: Perms, shared: Perms,
                           ign: set<Link>): (r: Verdict)
    requires Checkable(g, st) && v in g.children
    ensures r.masks.Keys == st.Keys
    decreases ReachSet(g, v), 1, 0
  {
    var t := Tightens(g, st, v, perm, shared);
    if (Write in perm || WriteUnchanged in perm) && !e.writable(v) then Verdict(false, t, st)
    else if v !in e.driver || e.driver[v].Closed? then Verdict(true, t, st)
    else if e.driver[v].Protocol? then Verdict(e.checkPerm(v, perm, shared), t, st)
    else Tightened(CheckChildren(e, g, st, v, perm, shared, ign, 0), t)
  }

  /** The children from the `i`-th on, up to the first one that refuses. */
  ghost function CheckChildren(e: Layer, g: Graph, st: Masks, v: Node, perm: Perms, shared: Perms, ign: set<Link>,
                               i: nat): (r: Verdict)
    requires Checkable(g, st) && v in g.children && i <= |g.children[v]|
    ensures r.masks.Keys == st.Keys
    decreases ReachSet(g, v), 0, |g.children[v]| - i
  {
    if i == |g.children[v]| then Verdict(true, false, st)
    else
      var c := g.children[v][i];
      ChildShrinks(g, v, c);
      var r := CheckLink(e, g, st, c, e.childPerm(v, c, perm, shared).0, e.childPerm(v, c, perm, shared).1, ign);
      if r.ok then Tightened(CheckChildren(e, g, r.masks, v, perm, shared, ign, i + 1), r.tighten) else r
  }

  /** New masks for a link: they must fit the other users of the node behind it, and
      the node must accept what all of them need together. */
  ghost function CheckLink(e: Layer, g: Graph, st: Masks, c: Link, perm: Perms, shared: Shared,
                           ign: set<Link>): (r: Verdict)
    requires Checkable(g, st) && c in g.target
    ensures r.masks.Keys == st.Keys
    decreases ReachSet(g, g.target[c]), 2
  {
    var r := CheckUser(e, g, st, g.target[c], perm, shared, ign + {c});
    if r.ok then r.(masks := r.masks[c := Assign(r.masks[c], perm, shared)]) else r
  }

  ghost function CheckUser(e: Layer, g: Graph, st: Masks, v: Node, perm: Perms, shared: Perms,
                           ign: set<Link>): (r: Verdict)
    requires Checkable(g, st) && v in g.children
    ensures r.masks.Keys == st.Keys
    decreases ReachSet(g, v), 1, 1
  {
    var others := Users(g, v) - ign;
    if Fits(st, others, perm, shared)
    then CheckNode(e, g, st, v, perm + Used(st, others), shared * Allowed(st, others), ign)
    else Verdict(false, true, st)
  }

  lemma NextChild(e: Layer, g: Graph, st: Masks, v: Node, perm: Perms, shared: Perms, ign: set<Link>, i: nat)
    requires Checkable(g, st) && v in g.children && i < |g.children[v]|
    ensures var c := g.children[v][i];
      && c in g.target && ReachSet(g, g.target[c]) < ReachSet(g, v)
      && var r := CheckLink(e, g, st, c, e.childPerm(v, c, perm, shared).0, e.childPerm(v, c, perm, shared).1, ign);
         CheckChildren(e, g, st, v, perm, shared, ign, i) ==
           if r.ok then Tightened(CheckChildren(e, g, r.masks, v, perm, shared, ign, i + 1), r.tighten) else r
  {
    ChildShrinks(g, v, g.children[v][i]);
  }

  lemma LastChild(e: Layer, g: Graph, st: Masks, v: Node, perm: Perms, shared: Perms, ign: set<Link>)
    requires Checkable(g, st) && v in g.children
    ensures CheckChildren(e, g, st, v, perm, shared, ign, |g.children[v]|) == Verdict(true, false, st)
  {
  }

  // ---- What a check keeps and achieves ---------------------------------------

  /** Links ignored by a check of `v`, those in `base` aside, lead to nodes above `v`. */
  ghost predicate IgnoredAbove(g: Graph, ign: set<Link>, base: set<Link>, v: Node)
  {
    base <= ign && forall q | q in ign && q !in base :: q in g.target && Reaches(g, g.target[q], v)
  }

  ghost predicate BaseOutside(g: Graph, base: set<Link>, v: Node)
  {
    forall l {:trigger Below(g, v, l)} | l in base :: !Below(g, v, l)
  }

  lemma IgnoreAlso(g: Graph, ign: set<Link>, base: set<Link>, c: Link)
    requires c in g.target && IgnoredAbove(g, ign, base, g.target[c])
    ensures IgnoredAbove(g, ign + {c}, base, g.target[c])
  {
    ReachesSelf(g, g.target[c]);
  }

  lemma ChildUnassigned(g: Graph, s0: Masks, s1: Masks, c: Link, base: set<Link>)
    requires c in g.target && Checked(g, s0, s1, g.target[c], base)
    ensures ChildChecked(g, s0, s1, c, base)
  {
  }

  lemma ChildAssign(e: Layer, g: Graph, s0: Masks, s1: Masks, c: Link, perm: Perms, shared: Shared,
                    ign: set<Link>, base: set<Link>)
    requires Dag(g) && c in g.target && c in s0 && c !in base && Checked(g, s0, s1, g.target[c], base)
    requires forall q | q in ign && q !in base :: q in g.target && g.target[q] != g.target[c]
    requires Fits(s0, Users(g, g.target[c]) - (ign + {c}), perm, shared)
    requires Serves(e, g, s1, g.target[c], perm + Used(s0, Users(g, g.target[c]) - (ign + {c})),
                     shared * Allowed(s0, Users(g, g.target[c]) - (ign + {c})))
    requires SettledBelow(e, g, s1, g.target[c], base)
    requires base <= ign
    ensures ChildChecked(g, s0, s1[c := Assign(s1[c], perm, shared)], c, base)
    ensures Settled(e, g, s1[c := Assign(s1[c], perm, shared)], g.target[c], base)
  {
    var v := g.target[c];
    assert Users(g, v) - (ign + {c}) == Users(g, v) - base - {c};
    AssignSettles(e, g, s0, s1, c, perm, shared, ign + {c}, base);
    if Compatible(g, s1, base) {
      AssignCompatible(g, s0, s1, c, perm, shared, ign + {c}, base);
    }
    var s2 := s1[c := Assign(s1[c], perm, shared)];
    forall l | l in s0 ensures Original(s2[l]) == Original(s0[l]) {
      assert Original(s1[l]) == Original(s0[l]);
    }
  }

  lemma NoChildrenDone(e: Layer, g: Graph, st: Masks, v: Node, perm: Perms, shared: Perms, base: set<Link>)
    requires Dag(g) && v in g.children && g.children[v] == []
    ensures Derived(e, g, st, v, perm, shared) && SettledBelow(e, g, st, v, base)
  {
    ChildrenDone(e, g, st, v, perm, shared, base);
  }

  ghost predicate ChildrenDoneTo(e: Layer, g: Graph, st: Masks, v: Node, i: nat,
                                 perm: Perms, shared: Perms, base: set<Link>)
    requires v in g.children
  {
    forall j {:trigger g.children[v][j]} | 0 <= j < i && j < |g.children[v]| ::
      ChildDone(e, g, st, v, g.children[v][j], perm, shared, base)
  }

  lemma CheckedTrans(g: Graph, s0: Masks, s1: Masks, s2: Masks, v: Node, base: set<Link>)
    requires Checked(g, s0, s1, v, base) && Checked(g, s1, s2, v, base)
    ensures Checked(g, s0, s2, v, base)
  {
    forall l | l in s0 ensures Original(s2[l]) == Original(s0[l]) {
      assert Original(s1[l]) == Original(s0[l]);
    }
  }

  /** One round of the loop over the children of a node. */
  lemma ChildRound(e: Layer, g: Graph, s1: Masks, s2: Masks, v: Node, i: nat,
                   perm: Perms, shared: Perms, base: set<Link>, ok: bool)
    requires Dag(g) && v in g.children && i < |g.children[v]|
    requires ChildChecked(g, s1, s2, g.children[v][i], base)
    requires ChildrenDoneTo(e, g, s1, v, i, perm, shared, base)
    requires ok ==> ChildDone(e, g, s2, v, g.children[v][i], perm, shared, base)
    ensures Checked(g, s1, s2, v, base)
    ensures ok ==> ChildrenDoneTo(e, g, s2, v, i + 1, perm, shared, base)
  {
    var children := g.children[v];
    assert Owns(g, v, children[i]);
    ChildStep(g, s1, s1, s2, v, children[i], base);
    if ok {
      forall j | 0 <= j < i ensures ChildDone(e, g, s2, v, children[j], perm, shared, base) {
        assert ChildDone(e, g, s1, v, children[j], perm, shared, base);
        if children[j] != children[i] {
          SettledKept(e, g, s1, s2, v, children[i], children[j], base);
        }
      }
    }
  }

  /** The conditions of a check pass from a node to the link it descends. */
  lemma ChildReady(g: Graph, v: Node, c: Link, ign: set<Link>, base: set<Link>)
    requires Dag(g) && Owns(g, v, c) && IgnoredAbove(g, ign, base, v) && BaseOutside(g, base, v)
    ensures c !in base && c in g.target && ReachSet(g, g.target[c]) < ReachSet(g, v)
    ensures IgnoredAbove(g, ign, base, g.target[c]) && BaseOutside(g, base, g.target[c])
    ensures forall q | q in ign && q !in base :: g.target[q] != g.target[c]
  {
    var w := g.target[c];
    BelowOwn(g, v, c);
    assert Edge(g, v, w);
    ReachSetShrinks(g, v, w);
    forall l | l in base ensures !Below(g, w, l) {
      if Below(g, w, l) { BelowChild(g, v, c, l); }
    }
    forall q | q in ign && q !in base ensures Reaches(g, g.target[q], w) && g.target[q] != w {
      ReachesEdge(g, g.target[q], v, w);
    }
  }

  /** Only links below the node change, what they held before stays recoverable and
      users stay compatible, even if the check fails halfway; on success the
      children hold what the driver derives and all nodes below agree with their
      users. */
  lemma {:induction false} NodeChecked(e: Layer, g: Graph, st: Masks, v: Node, perm: Perms, shared: Perms,
                                       ign: set<Link>, base: set<Link>)
    requires Checkable(g, st) && v in g.children
    requires IgnoredAbove(g, ign, base, v) && BaseOutside(g, base, v)
    requires Drivers(e, g)
    ensures var r := CheckNode(e, g, st, v, perm, shared, ign);
      && Checked(g, st, r.masks, v, base)
      && (r.ok ==> Serves(e, g, r.masks, v, perm, shared) && SettledBelow(e, g, r.masks, v, base))
    decreases ReachSet(g, v), 1, 0
  {
    hide Dag, Compatible, ChildDone;
    assert NodeDriver(e, g, v);
    if v in e.driver && e.driver[v].Parent? {
      ChildrenChecked(e, g, st, v, perm, shared, ign, base, 0);
      var r := CheckChildren(e, g, st, v, perm, shared, ign, 0);
      if r.ok {
        ChildrenDone(e, g, r.masks, v, perm, shared, base);
      }
    } else {
      NoChildrenDone(e, g, st, v, perm, shared, base);
    }
  }

  /** Only drivers that derive masks have children to descend to. */
  ghost predicate NodeDriver(e: Layer, g: Graph, v: Node)
  {
    v in g.children && ((v in e.driver && e.driver[v].Parent?) || g.children[v] == [])
  }

  ghost predicate Drivers(e: Layer, g: Graph)
  {
    forall v {:trigger NodeDriver(e, g, v)} | v in g.children :: NodeDriver(e, g, v)
  }

  lemma {:induction false} ChildrenChecked(e: Layer, g: Graph, st: Masks, v: Node, perm: Perms, shared: Perms,
                                           ign: set<Link>, base: set<Link>, i: nat)
    requires Checkable(g, st) && v in g.children && i <= |g.children[v]|
    requires IgnoredAbove(g, ign, base, v) && BaseOutside(g, base, v)
    requires Drivers(e, g)
    requires ChildrenDoneTo(e, g, st, v, i, perm, shared, base)
    ensures var r := CheckChildren(e, g, st, v, perm, shared, ign, i);
      && Checked(g, st, r.masks, v, base)
      && (r.ok ==> ChildrenDoneTo(e, g, r.masks, v, |g.children[v]|, perm, shared, base))
    decreases ReachSet(g, v), 0, |g.children[v]| - i
  {
    if i < |g.children[v]| {
      var c := g.children[v][i];
      var (p, s) := e.childPerm(v, c, perm, shared);
      ChildReady(g, v, c, ign, base);
      LinkChecked(e, g, st, c, p, s, ign, base);
      var r := CheckLink(e, g, st, c, p, s, ign);
      ChildRound(e, g, st, r.masks, v, i, perm, shared, base, r.ok);
      if r.ok {
        ChildrenChecked(e, g, r.masks, v, perm, shared, ign, base, i + 1);
        CheckedTrans(g, st, r.masks, CheckChildren(e, g, r.masks, v, perm, shared, ign, i + 1).masks, v, base);
      }
    }
  }

  lemma {:induction false} LinkChecked(e: Layer, g: Graph, st: Masks, c: Link, perm: Perms, shared: Shared,
                                       ign: set<Link>, base: set<Link>)
    requires Checkable(g, st) && c in g.target && c !in base
    requires IgnoredAbove(g, ign, base, g.target[c]) && BaseOutside(g, base, g.target[c])
    requires forall q | q in ign && q !in base :: g.target[q] != g.target[c]
    requires Drivers(e, g)
    ensures var r := CheckLink(e, g, st, c, perm, shared, ign);
      && ChildChecked(g, st, r.masks, c, base)
      && (r.ok ==> Granted(r.masks[c]) == (perm, shared) && Settled(e, g, r.masks, g.target[c], base))
    decreases ReachSet(g, g.target[c]), 2
  {
    var v := g.target[c];
    IgnoreAlso(g, ign, base, c);
    UserChecked(e, g, st, v, perm, shared, ign + {c}, base);
    var r := CheckUser(e, g, st, v, perm, shared, ign + {c});
    if r.ok {
      ChildAssign(e, g, st, r.masks, c, perm, shared, ign, base);
    } else {
      ChildUnassigned(g, st, r.masks, c, base);
    }
  }

  lemma {:induction false} UserChecked(e: Layer, g: Graph, st: Masks, v: Node, perm: Perms, shared: Perms,
                                       ign: set<Link>, base: set<Link>)
    requires Checkable(g, st) && v in g.children
    requires IgnoredAbove(g, ign, base, v) && BaseOutside(g, base, v)
    requires Drivers(e, g)
    ensures var r := CheckUser(e, g, st, v, perm, shared, ign);
      && Checked(g, st, r.masks, v, base)
      && (r.ok ==> Fits(st, Users(g, v) - ign, perm, shared) && SettledBelow(e, g, r.masks, v, base)
                   && Serves(e, g, r.masks, v, perm + Used(st, Users(g, v) - ign),
                           shared * Allowed(st, Users(g, v) - ign)))
    decreases ReachSet(g, v), 1, 1
  {
    var others := Users(g, v) - ign;
    if Fits(st, others, perm, shared) {
      NodeChecked(e, g, st, v, perm + Used(st, others), shared * Allowed(st, others), ign, base);
    }
  }
}
