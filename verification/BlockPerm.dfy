/** Permissions on the links of the block graph: what a link's user takes from the
    node behind it and what it lets other users take, and what one permission
    transaction (check, then set or abort) does to them. */
module BlockPerm {
  import opened BlockGraph

  datatype Permission = ConsistentRead | Write | WriteUnchanged | Resize | GraphMod

  type Perms = set<Permission>

  /** Every user tolerates rewriting unchanged data. */
  type Shared = s: set<Permission> | WriteUnchanged in s witness {WriteUnchanged}

  const ALL: Shared := {ConsistentRead, Write, WriteUnchanged, Resize, GraphMod}

  datatype Backup = NoBackup | Saved(perm: Perms, shared: Shared)

  /** `perm` is taken, `shared` is tolerated; a backup is kept while a check is undecided. */
  datatype LinkPerm = LinkPerm(perm: Perms, shared: Shared, backup: Backup)

  type Masks = map<Link, LinkPerm>

  /** A node is closed, or its driver checks masks itself and has no children, or
      its driver derives the masks of its children from its own. */
  datatype Driver = Closed | Protocol | Parent

  /** The graph and the drivers' callbacks. */
  datatype Layer = Layer(
    graph: Graph,
    driver: map<Node, Driver>,
    childPerm: (Node, Link, Perms, Perms) -> (Perms, Shared),
    checkPerm: (Node, Perms, Perms) -> bool,
    writable: Node -> bool)

  ghost predicate LayerOk(e: Layer)
  {
    && WellFormed(e.graph)
    && Acyclic(e.graph)
    && (forall u, v, c | Owns(e.graph, u, c) && Owns(e.graph, v, c) :: u == v)
    && e.driver.Keys == e.graph.children.Keys
    && (forall v | v in e.driver && e.driver[v].Protocol? :: e.graph.children[v] == [])
  }

  /** Transactions do not descend below a closed node. */
  ghost function Driven(e: Layer): Graph
  {
    e.graph.(children := map v | v in e.graph.children ::
      if v in e.driver && e.driver[v].Closed? then [] else e.graph.children[v])
  }

  lemma {:induction false} DrivenDescends(e: Layer, u: Node, v: Node, n: nat)
    requires Descends(Driven(e), u, v, n)
    ensures Descends(e.graph, u, v, n)
    decreases n
  {
    if n > 0 {
      var w :| Edge(Driven(e), u, w) && Descends(Driven(e), w, v, n - 1);
      DrivenEdge(e, u, w);
      DrivenDescends(e, w, v, n - 1);
    }
  }

  lemma DrivenEdge(e: Layer, u: Node, w: Node)
    requires Edge(Driven(e), u, w)
    ensures Edge(e.graph, u, w)
  {
  }

  lemma DrivenReaches(e: Layer, u: Node, v: Node)
    requires Reaches(Driven(e), u, v)
    ensures Reaches(e.graph, u, v)
  {
    var n: nat :| Descends(Driven(e), u, v, n);
    DrivenDescends(e, u, v, n);
  }

  /** What the transactions need of the graph they descend. */
  ghost predicate Dag(g: Graph)
  {
    && WellFormed(g)
    && Acyclic(g)
    && (forall u, v, c | Owns(g, u, c) && Owns(g, v, c) :: u == v)
  }

  lemma DrivenDag(e: Layer)
    requires LayerOk(e)
    ensures Dag(Driven(e))
  {
    var k := Driven(e);
    forall u, v | Edge(k, u, v) ensures !Reaches(k, v, u) {
      DrivenEdge(e, u, v);
      if Reaches(k, v, u) { DrivenReaches(e, v, u); }
    }
    forall u, v, c | Owns(k, u, c) && Owns(k, v, c) ensures u == v {
      assert Owns(e.graph, u, c) && Owns(e.graph, v, c);
    }
  }

  // ---- Masks ---------------------------------------------------------------

  function Granted(lp: LinkPerm): (Perms, Perms)
  {
    (lp.perm, lp.shared)
  }

  /** The masks a link had before the undecided check. */
  function Original(lp: LinkPerm): LinkPerm
  {
    if lp.backup.NoBackup? then lp else LinkPerm(lp.backup.perm, lp.backup.shared, NoBackup)
  }

  function Committed(lp: LinkPerm): LinkPerm
  {
    lp.(backup := NoBackup)
  }

  /** The end of a transaction for one link. */
  function Finished(lp: LinkPerm, commit: bool): LinkPerm
  {
    if commit then Committed(lp) else Original(lp)
  }

  ghost function Users(g: Graph, v: Node): set<Link>
  {
    set c | c in g.target && g.target[c] == v
  }

  ghost predicate SomeTakes(st: Masks, users: set<Link>, p: Permission)
  {
    exists c {:trigger c in users} :: c in users && c in st && p in st[c].perm
  }

  ghost predicate AllShare(st: Masks, users: set<Link>, p: Permission)
  {
    forall c {:trigger c in users} | c in users && c in st :: p in st[c].shared
  }

  ghost function Used(st: Masks, users: set<Link>): Perms
  {
    set p: Permission | SomeTakes(st, users, p)
  }

  ghost function Allowed(st: Masks, users: set<Link>): Perms
  {
    set p: Permission | AllShare(st, users, p)
  }

  /** What `a` takes, `b` tolerates. */
  ghost predicate Tolerates(st: Masks, a: Link, b: Link)
  {
    a in st && b in st ==> st[a].perm <= st[b].shared
  }

  /** Any two users of one node tolerate each other, links in `base` aside. */
  ghost predicate Compatible(g: Graph, st: Masks, base: set<Link>)
  {
    forall a, b {:trigger Tolerates(st, a, b)}
      | a in g.target && b in g.target && a != b && g.target[a] == g.target[b] && a !in base && b !in base
      :: Tolerates(st, a, b)
  }

  /** What a node itself has against masks: its image cannot be written to, or its
      driver refuses. */
  ghost predicate Accepts(e: Layer, v: Node, perm: Perms, shared: Perms)
  {
    && (Write in perm || WriteUnchanged in perm ==> e.writable(v))
    && (v in e.driver && e.driver[v].Protocol? ==> e.checkPerm(v, perm, shared))
  }

  /** The links `u` owns hold what its driver derives from the given masks. */
  ghost predicate Derived(e: Layer, g: Graph, st: Masks, u: Node, perm: Perms, shared: Perms)
  {
    forall c {:trigger Owns(g, u, c)} | Owns(g, u, c) && c in st :: Granted(st[c]) == e.childPerm(u, c, perm, shared)
  }

  ghost predicate Serves(e: Layer, g: Graph, st: Masks, u: Node, perm: Perms, shared: Perms)
  {
    Accepts(e, u, perm, shared) && Derived(e, g, st, u, perm, shared)
  }

  /** `u` accepts what its users hold, links in `base` aside, and the links it owns
      hold what follows from that. */
  ghost predicate Consistent(e: Layer, g: Graph, st: Masks, u: Node, base: set<Link>)
  {
    Serves(e, g, st, u, Used(st, Users(g, u) - base), Allowed(st, Users(g, u) - base))
  }

  /** Link `c` is owned by a node that `v` reaches. */
  ghost predicate Below(g: Graph, v: Node, c: Link)
  {
    exists o :: Reaches(g, v, o) && Owns(g, o, c)
  }

  lemma BelowOwn(g: Graph, v: Node, c: Link)
    requires Owns(g, v, c)
    ensures Below(g, v, c)
  {
    ReachesSelf(g, v);
  }

  lemma BelowChild(g: Graph, v: Node, c: Link, l: Link)
    requires Owns(g, v, c) && c in g.target && Below(g, g.target[c], l)
    ensures Below(g, v, l)
  {
    var o :| Reaches(g, g.target[c], o) && Owns(g, o, l);
    assert Edge(g, v, g.target[c]);
    EdgeReaches(g, v, g.target[c], o);
  }

  /** A link below `v` is one of `v`'s own or below one of its children. */
  lemma BelowSplit(g: Graph, v: Node, l: Link) returns (c: Link)
    requires WellFormed(g) && Below(g, v, l)
    ensures Owns(g, v, c) && (l == c || Below(g, g.target[c], l))
  {
    var o :| Reaches(g, v, o) && Owns(g, o, l);
    if o == v {
      c := l;
    } else {
      var w := ReachesStep(g, v, o);
      c :| Owns(g, v, c) && c in g.target && g.target[c] == w;
    }
  }

  /** A link below `v` leads to a node `v` reaches. */
  lemma BelowLeads(g: Graph, v: Node, l: Link)
    requires WellFormed(g) && Below(g, v, l)
    ensures l in g.target && Reaches(g, v, g.target[l])
  {
    var o :| Reaches(g, v, o) && Owns(g, o, l);
    assert Edge(g, o, g.target[l]);
    ReachesEdge(g, v, o, g.target[l]);
  }

  /** No link below a node leads to an owner above it or to the node itself. */
  lemma NotBelow(g: Graph, v: Node, l: Link)
    requires Dag(g) && l in g.target
    ensures (exists o :: Owns(g, o, l) && Reaches(g, g.target[l], v)) ==> !Below(g, v, l)
    ensures g.target[l] == v ==> !Below(g, v, l)
  {
    if Below(g, v, l) {
      var o :| Reaches(g, v, o) && Owns(g, o, l);
      assert Edge(g, o, g.target[l]);
      if Reaches(g, g.target[l], v) {
        ReachesTrans(g, g.target[l], v, o);
      }
      ReachesSelf(g, v);
    }
  }

  // ---- One check -----------------------------------------------------------

  /** Only links below `v` differ. */
  ghost predicate KeepsOutside(g: Graph, s0: Masks, s1: Masks, v: Node)
  {
    && s0.Keys == s1.Keys
    && forall l {:trigger Below(g, v, l)} {:trigger s1[l]} | l in s0 && !Below(g, v, l) :: s1[l] == s0[l]
  }

  ghost predicate SameOriginal(s0: Masks, s1: Masks)
  {
    s0.Keys == s1.Keys && forall l {:trigger s1[l]} | l in s0 :: Original(s1[l]) == Original(s0[l])
  }

  /** All nodes that `v` reaches, `v` aside, agree with their users. */
  ghost predicate SettledBelow(e: Layer, g: Graph, st: Masks, v: Node, base: set<Link>)
  {
    forall u {:trigger Consistent(e, g, st, u, base)} | u != v && Reaches(g, v, u) :: Consistent(e, g, st, u, base)
  }

  ghost predicate Settled(e: Layer, g: Graph, st: Masks, v: Node, base: set<Link>)
  {
    forall u {:trigger Consistent(e, g, st, u, base)} | Reaches(g, v, u) :: Consistent(e, g, st, u, base)
  }

  /** The other users of the node behind `c` get along with the new masks. */
  ghost predicate Fits(st: Masks, others: set<Link>, perm: Perms, shared: Perms)
  {
    forall q {:trigger q in others} | q in others && q in st :: perm <= st[q].shared && st[q].perm <= shared
  }

  function Assign(lp: LinkPerm, perm: Perms, shared: Shared): LinkPerm
  {
    LinkPerm(perm, shared, if lp.backup.NoBackup? then Saved(lp.perm, lp.shared) else lp.backup)
  }

  lemma UsersKept(e: Layer, g: Graph, s0: Masks, s1: Masks, v: Node)
    requires Dag(g) && KeepsOutside(g, s0, s1, v)
    ensures forall q | q in Users(g, v) && q in s0 :: s1[q] == s0[q]
  {
  }

  /** The new masks of `c` together with those of the other users are what all
      users hold once `c` has them. */
  lemma CumulativeSplit(g: Graph, s0: Masks, s2: Masks, c: Link, ign: set<Link>, base: set<Link>,
                        perm: Perms, shared: Perms)
    requires c in g.target && c in s0 && c !in base && s0.Keys == s2.Keys
    requires Users(g, g.target[c]) - ign == Users(g, g.target[c]) - base - {c}
    requires Granted(s2[c]) == (perm, shared)
    requires forall q | q in Users(g, g.target[c]) && q in s0 && q != c :: s2[q] == s0[q]
    ensures Used(s2, Users(g, g.target[c]) - base) == perm + Used(s0, Users(g, g.target[c]) - ign)
    ensures Allowed(s2, Users(g, g.target[c]) - base) == shared * Allowed(s0, Users(g, g.target[c]) - ign)
  {
    var all := Users(g, g.target[c]) - base;
    var others := Users(g, g.target[c]) - ign;
    forall p: Permission ensures p in Used(s2, all) <==> p in perm + Used(s0, others) {
      if p in Used(s2, all) {
        var q :| q in all && q in s2 && p in s2[q].perm;
        assert q == c || q in others;
      }
      if q :| q in others && q in s0 && p in s0[q].perm {
        assert q in all && p in s2[q].perm;
      }
      assert c in all;
    }
    forall p: Permission ensures p in Allowed(s2, all) <==> p in shared * Allowed(s0, others) {
      assert c in all;
      if p in Allowed(s2, all) {
        assert p in s2[c].shared;
        forall q | q in others && q in s0 ensures p in s0[q].shared { assert q in all; }
      }
      if p in shared && p in Allowed(s0, others) {
        forall q | q in all && q in s2 ensures p in s2[q].shared { assert q == c || q in others; }
      }
    }
  }

  /** Only `c` and links below the node behind it differ. */
  ghost predicate KeepsBut(g: Graph, s0: Masks, s1: Masks, c: Link)
  {
    && s0.Keys == s1.Keys && c in g.target
    && forall l {:trigger Below(g, g.target[c], l)} {:trigger s1[l]}
         | l in s0 && l != c && !Below(g, g.target[c], l) :: s1[l] == s0[l]
  }

  /** Such masks leave a node that `c` does not lead to as consistent as it was. */
  lemma ConsistentKept(e: Layer, g: Graph, s0: Masks, s1: Masks, c: Link, u: Node, base: set<Link>)
    requires Dag(g) && KeepsBut(g, s0, s1, c) && !Reaches(g, g.target[c], u) && !Owns(g, u, c)
    requires Consistent(e, g, s0, u, base)
    ensures Consistent(e, g, s1, u, base)
  {
    var w := g.target[c];
    ReachesSelf(g, w);
    forall q | q in Users(g, u) && q in s0 ensures s1[q] == s0[q] {
      if Below(g, w, q) { BelowLeads(g, w, q); }
    }
    SameMasksSame(s0, s1, Users(g, u) - base);
    forall d | Owns(g, u, d) && d in s0 ensures s1[d] == s0[d] {
      assert !Below(g, w, d);
    }
  }

  lemma SameMasksSame(s0: Masks, s1: Masks, users: set<Link>)
    requires s0.Keys == s1.Keys
    requires forall q | q in users && q in s0 :: Granted(s1[q]) == Granted(s0[q])
    ensures Used(s1, users) == Used(s0, users) && Allowed(s1, users) == Allowed(s0, users)
  {
  }

  /** After the node behind `c` was checked against the new masks, giving them to `c`
      keeps users compatible. */
  lemma AssignCompatible(g: Graph, s0: Masks, s1: Masks, c: Link, perm: Perms, shared: Shared,
                         ign: set<Link>, base: set<Link>)
    requires Dag(g) && c in g.target && c in s0 && KeepsOutside(g, s0, s1, g.target[c])
    requires c !in base && Users(g, g.target[c]) - ign == Users(g, g.target[c]) - base - {c}
    requires Fits(s0, Users(g, g.target[c]) - ign, perm, shared)
    requires Compatible(g, s1, base)
    ensures Compatible(g, s1[c := Assign(s1[c], perm, shared)], base)
  {
    var s2 := s1[c := Assign(s1[c], perm, shared)];
    var w := g.target[c];
    forall a, b | a in g.target && b in g.target && a != b && g.target[a] == g.target[b] && a !in base && b !in base
      ensures Tolerates(s2, a, b)
    {
      assert Tolerates(s1, a, b);
      if a == c {
        assert b in Users(g, w) - ign;
        NotBelow(g, w, b);
      } else if b == c {
        assert a in Users(g, w) - ign;
        NotBelow(g, w, a);
      }
    }
  }

  /** ... and every node that the node behind `c` reaches agrees with its users. */
  lemma AssignSettles(e: Layer, g: Graph, s0: Masks, s1: Masks, c: Link, perm: Perms, shared: Shared,
                      ign: set<Link>, base: set<Link>)
    requires Dag(g) && c in g.target && c in s0 && KeepsOutside(g, s0, s1, g.target[c])
    requires c !in base && Users(g, g.target[c]) - ign == Users(g, g.target[c]) - base - {c}
    requires SettledBelow(e, g, s1, g.target[c], base)
    requires Serves(e, g, s1, g.target[c], perm + Used(s0, Users(g, g.target[c]) - ign),
                     shared * Allowed(s0, Users(g, g.target[c]) - ign))
    ensures Settled(e, g, s1[c := Assign(s1[c], perm, shared)], g.target[c], base)
  {
    var s2 := s1[c := Assign(s1[c], perm, shared)];
    var w := g.target[c];
    UsersKept(e, g, s0, s1, w);
    forall u | Reaches(g, w, u) ensures Consistent(e, g, s2, u, base) {
      forall d | Owns(g, u, d) && d in s1 ensures s2[d] == s1[d] {
        assert Below(g, w, d);
        NotBelow(g, w, c);
      }
      if u == w {
        CumulativeSplit(g, s0, s2, c, ign, base, perm, shared);
      } else {
        assert Consistent(e, g, s1, u, base);
        assert c !in Users(g, u);
        SameMasksSame(s1, s2, Users(g, u) - base);
      }
    }
  }

  // ---- The loop over the children -------------------------------------------

  ghost predicate Checked(g: Graph, s0: Masks, s1: Masks, v: Node, base: set<Link>)
  {
    && KeepsOutside(g, s0, s1, v)
    && SameOriginal(s0, s1)
    && (Compatible(g, s0, base) ==> Compatible(g, s1, base))
  }

  ghost predicate ChildChecked(g: Graph, s0: Masks, s1: Masks, c: Link, base: set<Link>)
  {
    && KeepsBut(g, s0, s1, c)
    && SameOriginal(s0, s1)
    && (Compatible(g, s0, base) ==> Compatible(g, s1, base))
  }

  ghost predicate ChildDone(e: Layer, g: Graph, st: Masks, v: Node, c: Link, perm: Perms, shared: Perms,
                            base: set<Link>)
  {
    && c in st && c in g.target
    && Granted(st[c]) == e.childPerm(v, c, perm, shared)
    && Settled(e, g, st, g.target[c], base)
  }

  lemma ChildStep(g: Graph, s0: Masks, s1: Masks, s2: Masks, v: Node, c: Link, base: set<Link>)
    requires Checked(g, s0, s1, v, base) && Owns(g, v, c) && ChildChecked(g, s1, s2, c, base)
    ensures Checked(g, s0, s2, v, base)
  {
    forall l | l in s0 && !Below(g, v, l) ensures s2[l] == s0[l] {
      if l == c { BelowOwn(g, v, c); }
      if Below(g, g.target[c], l) { BelowChild(g, v, c, l); }
    }
  }

  /** Checking one child leaves another one, and all it leads to, as it was or settled. */
  lemma SettledKept(e: Layer, g: Graph, s1: Masks, s2: Masks, v: Node, c: Link, d: Link, base: set<Link>)
    requires Dag(g) && Owns(g, v, c) && Owns(g, v, d) && c != d && d in s1 && KeepsBut(g, s1, s2, c)
    requires Settled(e, g, s1, g.target[d], base) && Settled(e, g, s2, g.target[c], base)
    ensures s2[d] == s1[d] && Settled(e, g, s2, g.target[d], base)
  {
    assert Edge(g, v, g.target[c]);
    assert !Below(g, g.target[c], d);
    forall u | Reaches(g, g.target[d], u) ensures Consistent(e, g, s2, u, base) {
      assert Edge(g, v, g.target[d]);
      if Reaches(g, g.target[c], u) {
        assert Consistent(e, g, s2, u, base);
      } else {
        assert Consistent(e, g, s1, u, base);
        ConsistentKept(e, g, s1, s2, c, u, base);
      }
    }
  }

  /** Once all children are done, the node and everything below it has settled. */
  lemma ChildrenDone(e: Layer, g: Graph, st: Masks, v: Node, perm: Perms, shared: Perms, base: set<Link>)
    requires Dag(g) && forall c | Owns(g, v, c) :: ChildDone(e, g, st, v, c, perm, shared, base)
    ensures Derived(e, g, st, v, perm, shared) && SettledBelow(e, g, st, v, base)
  {
    forall u | u != v && Reaches(g, v, u) ensures Consistent(e, g, st, u, base) {
      var w := ReachesStep(g, v, u);
      var c :| Owns(g, v, c) && c in g.target && g.target[c] == w;
      assert ChildDone(e, g, st, v, c, perm, shared, base);
    }
  }

  /** One link was visited in a walk over the links below a node. */
  ghost predicate Visited(g: Graph, cs: seq<Link>, l: Link)
  {
    exists c :: c in cs && c in g.target && (l == c || Below(g, g.target[c], l))
  }

  lemma VisitedAll(g: Graph, v: Node, l: Link)
    requires WellFormed(g) && v in g.children
    ensures Visited(g, g.children[v], l) <==> Below(g, v, l)
  {
    if Below(g, v, l) {
      var c := BelowSplit(g, v, l);
    }
    if Visited(g, g.children[v], l) {
      var c :| c in g.children[v] && c in g.target && (l == c || Below(g, g.target[c], l));
      if l == c { BelowOwn(g, v, c); } else { BelowChild(g, v, c, l); }
    }
  }

  /** `s1` is `s0` with every link below `v` finished. */
  ghost predicate Rewritten(g: Graph, s0: Masks, s1: Masks, v: Node, commit: bool)
  {
    && s0.Keys == s1.Keys
    && forall l {:trigger s1[l]} | l in s0 ::
         s1[l] == if Below(g, v, l) then Finished(s0[l], commit) else s0[l]
  }

  ghost predicate RewrittenAt(g: Graph, s0: Masks, s1: Masks, cs: seq<Link>, commit: bool)
  {
    && s0.Keys == s1.Keys
    && forall l {:trigger s1[l]} | l in s0 ::
         s1[l] == if Visited(g, cs, l) then Finished(s0[l], commit) else s0[l]
  }

  ghost predicate RewrittenChild(g: Graph, s0: Masks, s1: Masks, c: Link, commit: bool)
  {
    && s0.Keys == s1.Keys && c in g.target
    && forall l {:trigger s1[l]} | l in s0 ::
         s1[l] == if l == c || Below(g, g.target[c], l) then Finished(s0[l], commit) else s0[l]
  }

  /** Links reached twice are finished once: finishing is idempotent. */
  lemma RewriteStep(g: Graph, s0: Masks, s1: Masks, s2: Masks, cs: seq<Link>, i: nat, commit: bool)
    requires i < |cs| && RewrittenAt(g, s0, s1, cs[..i], commit) && RewrittenChild(g, s1, s2, cs[i], commit)
    ensures RewrittenAt(g, s0, s2, cs[..i + 1], commit)
  {
  }

  lemma RewriteAll(g: Graph, s0: Masks, s1: Masks, v: Node, n: nat, commit: bool)
    requires Dag(g) && v in g.children && n == |g.children[v]|
    requires RewrittenAt(g, s0, s1, g.children[v][..n], commit)
    ensures Rewritten(g, s0, s1, v, commit)
  {
    assert g.children[v][..n] == g.children[v];
    forall l | l in s0 ensures s1[l] == if Below(g, v, l) then Finished(s0[l], commit) else s0[l] {
      VisitedAll(g, v, l);
    }
  }

  lemma RewriteChild(g: Graph, s0: Masks, s1: Masks, c: Link, commit: bool)
    requires Dag(g) && c in s0 && c in g.target
    requires Rewritten(g, s0[c := Finished(s0[c], commit)], s1, g.target[c], commit)
    ensures RewrittenChild(g, s0, s1, c, commit)
  {
  }

  /** Masks that grant the same leave every node as consistent as it was. */
  lemma GrantsConsistent(e: Layer, g: Graph, s0: Masks, s1: Masks, u: Node, base: set<Link>)
    requires s0.Keys == s1.Keys && forall l {:trigger s1[l]} | l in s0 :: Granted(s1[l]) == Granted(s0[l])
    requires Consistent(e, g, s0, u, base)
    ensures Consistent(e, g, s1, u, base)
  {
    SameMasksSame(s0, s1, Users(g, u) - base);
  }

  /** A check, decided or not, and the abort that follows it leave every link as
      it was, links checked more than once included. */
  lemma AbortUndoes(g: Graph, s0: Masks, s1: Masks, s2: Masks, c: Link)
    requires forall l {:trigger s0[l]} | l in s0 :: s0[l].backup.NoBackup?
    requires KeepsBut(g, s0, s1, c) && SameOriginal(s0, s1) && RewrittenChild(g, s1, s2, c, false)
    ensures s2 == s0
  {
  }
}
