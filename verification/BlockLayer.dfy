/** The block layer's nodes and links as they are updated in place: permission
    transactions, and replacing one node by another. */
module BlockLayer {
  import opened Helpers
  import opened BlockGraph
  import opened BlockPerm
  import opened BlockCheck
  import opened BlockReplace
  import opened BlockExact

  /** `parents[v]` lists exactly the links that point at `v`. */
  ghost predicate ParentsOk(g: Graph, parents: map<Node, seq<Link>>)
  {
    && parents.Keys == g.children.Keys
    && (forall v, c {:trigger c in parents[v]} | v in parents && c in parents[v] :: c in g.target && g.target[c] == v)
    && (forall c {:trigger g.target[c]} | c in g.target :: g.target[c] in parents && c in parents[g.target[c]])
  }

  ghost predicate NoBackups(st: Masks)
  {
    forall l {:trigger st[l]} | l in st :: st[l].backup.NoBackup?
  }

  /** No transaction is under way and all users of a node tolerate each other. */
  ghost predicate Steady(g: Graph, st: Masks)
  {
    NoBackups(st) && Compatible(g, st, {})
  }

  ghost function Listed(ps: seq<Link>, i: nat, ign: set<Link>): set<Link>
    requires i <= |ps|
  {
    set c | c in ps[..i] && c !in ign
  }

  lemma CumulativeNone(st: Masks)
    ensures Used(st, {}) == {} && Allowed(st, {}) == ALL
  {
    forall p: Permission ensures p in ALL && p in Allowed(st, {}) {
      match p { case ConsistentRead => case Write => case WriteUnchanged => case Resize => case GraphMod => }
    }
  }

  lemma CumulativeAdd(st: Masks, users: set<Link>, c: Link)
    requires c in st
    ensures Used(st, users + {c}) == Used(st, users) + st[c].perm
    ensures Allowed(st, users + {c}) == Allowed(st, users) * st[c].shared
  {
  }

  /** The masks of a new user fit those of `users`; `perm` and `shared` sum them all up. */
  ghost predicate Summed(st: Masks, users: set<Link>, newPerm: Perms, newShared: Perms, perm: Perms, shared: Perms)
  {
    && Fits(st, users, newPerm, newShared)
    && perm == newPerm + Used(st, users)
    && shared == newShared * Allowed(st, users)
  }

  lemma SummedNone(st: Masks, newPerm: Perms, newShared: Perms)
    ensures Summed(st, {}, newPerm, newShared, newPerm, newShared)
  {
  }

  lemma SummedAdd(st: Masks, users: set<Link>, c: Link, newPerm: Perms, newShared: Perms, perm: Perms, shared: Perms)
    requires Summed(st, users, newPerm, newShared, perm, shared) && c in st
    requires newPerm <= st[c].shared && st[c].perm <= newShared
    ensures Summed(st, users + {c}, newPerm, newShared, perm + st[c].perm, shared * st[c].shared)
  {
  }

  lemma ListedNext(ps: seq<Link>, i: nat, ign: set<Link>)
    requires i < |ps|
    ensures Listed(ps, i + 1, ign) == if ps[i] in ign then Listed(ps, i, ign) else Listed(ps, i, ign) + {ps[i]}
  {
  }

  lemma ListedAll(g: Graph, parents: map<Node, seq<Link>>, v: Node, ign: set<Link>)
    requires ParentsOk(g, parents) && v in parents
    ensures Listed(parents[v], |parents[v]|, ign) == Users(g, v) - ign
  {
    assert parents[v][..|parents[v]|] == parents[v];
  }

  /** `g` has the links of the layer, those that closed nodes own aside. */
  ghost predicate Descended(e: Layer, g: Graph)
  {
    && g.target == e.graph.target
    && e.driver.Keys == g.children.Keys == e.graph.children.Keys
    && forall v {:trigger g.children[v]} {:trigger e.driver[v]} | v in g.children ::
         && g.children[v] == (if e.driver[v].Closed? then [] else e.graph.children[v])
         && (e.driver[v].Protocol? ==> g.children[v] == [])
  }

  function Elements(s: seq<Link>): set<Link>
  {
    set c | c in s
  }

  /** The links that have to move are free to, and the new node accepts them as users
      beside those it has. */
  ghost predicate Replaceable(e: Layer, g: Graph, st: Masks, stayAtNode: set<Link>, frozen: set<Link>, from: Node,
                              to: Node)
    requires Checkable(g, st) && to in g.children
  {
    var movable := Movable(e.graph, stayAtNode, from, to);
    movable !! frozen && CheckUser(e, g, st, to, Used(st, movable), Allowed(st, movable), movable).ok
  }

  class BlockNodes {
    var layer: Layer
    var parents: map<Node, seq<Link>>
    var masks: Masks
    var stayAtNode: set<Link>
    var frozen: set<Link>

    /** The graph a permission transaction descends. */
    ghost var driven: Graph

    /** What transactions rely on. */
    ghost predicate Structure()
      reads `layer, `parents, `driven
    {
      && Dag(driven)
      && ParentsOk(driven, parents)
      && Descended(layer, driven)
    }

    ghost predicate Ready()
      reads this
    {
      Structure() && masks.Keys == driven.target.Keys
    }

    ghost predicate Sound()
      reads `layer, `driven
    {
      LayerOk(layer) && driven == Driven(layer)
    }

    ghost predicate Valid()
      reads this
    {
      Ready() && Sound()
    }

    method GetCumulativePerm(v: Node) returns (perm: Perms, shared: Perms)
      requires Ready() && v in parents
      ensures perm == Used(masks, Users(driven, v))
      ensures shared == Allowed(masks, Users(driven, v))
    {
      hide Dag, Descended, Used, Allowed;
      perm, shared := {}, ALL;
      CumulativeNone(masks);
      assert Listed(parents[v], 0, {}) == {};
      for i := 0 to |parents[v]|
        invariant perm == Used(masks, Listed(parents[v], i, {}))
        invariant shared == Allowed(masks, Listed(parents[v], i, {}))
      {
        var c := parents[v][i];
        assert c in parents[v];
        ListedNext(parents[v], i, {});
        CumulativeAdd(masks, Listed(parents[v], i, {}), c);
        perm, shared := perm + masks[c].perm, shared * masks[c].shared;
      }
      ListedAll(driven, parents, v, {});
      assert Users(driven, v) - {} == Users(driven, v);
    }

    /** The users of `v` that are not ignored, against the masks of a new user. */
    method AddUser(v: Node, newPerm: Perms, newShared: Shared, ign: set<Link>)
      returns (ok: bool, perm: Perms, shared: Perms)
      requires Ready() && v in parents
      ensures ok <==> Fits(masks, Users(driven, v) - ign, newPerm, newShared)
      ensures ok ==> perm == newPerm + Used(masks, Users(driven, v) - ign)
      ensures ok ==> shared == newShared * Allowed(masks, Users(driven, v) - ign)
    {
      hide Dag, Descended, Used, Allowed;
      perm, shared := newPerm, newShared;
      var users := parents[v];
      SummedNone(masks, newPerm, newShared);
      ListedAll(driven, parents, v, ign);
      assert Listed(users, 0, ign) == {};
      for i := 0 to |users|
        invariant Summed(masks, Listed(users, i, ign), newPerm, newShared, perm, shared)
      {
        var c := users[i];
        ListedNext(users, i, ign);
        if c in ign {
          continue;
        }
        assert c in Users(driven, v) - ign;
        if newPerm * masks[c].shared != newPerm {
          return false, perm, shared;
        }
        if masks[c].perm * newShared != masks[c].perm {
          return false, perm, shared;
        }
        SummedAdd(masks, Listed(users, i, ign), c, newPerm, newShared, perm, shared);
        perm, shared := perm + masks[c].perm, shared * masks[c].shared;
      }
      ok := true;
    }

    method CheckPerm(v: Node, perm: Perms, shared: Perms, ign: set<Link>) returns (ok: bool, tighten: bool)
      requires Ready() && v in parents
      modifies `masks
      ensures Verdict(ok, tighten, masks) == CheckNode(layer, driven, old(masks), v, perm, shared, ign)
      decreases ReachSet(driven, v), 1, 1
    {
      hide Dag;
      var currentPerm, currentShared := GetCumulativePerm(v);
      tighten := Restricts(perm, shared, currentPerm, currentShared);
      if (Write in perm || WriteUnchanged in perm) && !layer.writable(v) {
        return false, tighten;
      }
      if layer.driver[v].Closed? {
        return true, tighten;
      }
      if layer.driver[v].Protocol? {
        ok := layer.checkPerm(v, perm, shared);
        return;
      }
      var childrenTighten;
      ok, childrenTighten := CheckChildPerms(v, perm, shared, ign);
      tighten := tighten || childrenTighten;
    }

    /** The children of `v`, each against the masks its driver derives for it. */
    method CheckChildPerms(v: Node, perm: Perms, shared: Perms, ign: set<Link>) returns (ok: bool, tighten: bool)
      requires Ready() && v in parents && layer.driver[v].Parent?
      modifies `masks
      ensures Verdict(ok, tighten, masks) == CheckChildren(layer, driven, old(masks), v, perm, shared, ign, 0)
      decreases ReachSet(driven, v), 1, 0
    {
      hide Dag, CheckChildren, CheckLink;
      var children := layer.graph.children[v];
      ghost var all := CheckChildren(layer, driven, masks, v, perm, shared, ign, 0);
      tighten := false;
      for i := 0 to |children|
        invariant masks.Keys == driven.target.Keys
        invariant all == Tightened(CheckChildren(layer, driven, masks, v, perm, shared, ign, i), tighten)
      {
        var c := children[i];
        var (curPerm, curShared) := layer.childPerm(v, c, perm, shared);
        NextChild(layer, driven, masks, v, perm, shared, ign, i);
        var childTighten;
        ok, childTighten := ChildCheckPerm(c, curPerm, curShared, ign);
        tighten := tighten || childTighten;
        if !ok {
          return;
        }
      }
      LastChild(layer, driven, masks, v, perm, shared, ign);
      ok := true;
    }

    method CheckUpdatePerm(v: Node, newPerm: Perms, newShared: Shared, ign: set<Link>) returns (ok: bool, tighten: bool)
      requires Ready() && v in parents
      modifies `masks
      ensures Verdict(ok, tighten, masks) == CheckUser(layer, driven, old(masks), v, newPerm, newShared, ign)
      decreases ReachSet(driven, v), 2
    {
      hide Dag;
      var fits, perm, shared := AddUser(v, newPerm, newShared, ign);
      if !fits {
        return false, true;
      }
      ok, tighten := CheckPerm(v, perm, shared, ign);
    }

    method ChildCheckPerm(c: Link, perm: Perms, shared: Shared, ign: set<Link>) returns (ok: bool, tighten: bool)
      requires Ready() && c in masks
      modifies `masks
      ensures Verdict(ok, tighten, masks) == CheckLink(layer, driven, old(masks), c, perm, shared, ign)
      decreases ReachSet(driven, driven.target[c]), 3
    {
      hide Dag;
      ok, tighten := CheckUpdatePerm(layer.graph.target[c], perm, shared, ign + {c});
      if ok {
        masks := masks[c := Assign(masks[c], perm, shared)];
      }
    }

    method AbortPermUpdate(v: Node)
      requires Ready() && v in parents
      modifies `masks
      ensures Rewritten(driven, old(masks), masks, v, false)
      decreases ReachSet(driven, v), 0
    {
      hide Dag;
      if layer.driver[v].Closed? {
        NothingBelow(driven, v);
        return;
      }
      var children := layer.graph.children[v];
      for i := 0 to |children|
        invariant RewrittenAt(driven, old(masks), masks, children[..i], false)
      {
        ghost var before := masks;
        ChildShrinks(driven, v, children[i]);
        ChildAbortPermUpdate(children[i]);
        RewriteStep(driven, old(masks), before, masks, children, i, false);
      }
      RewriteAll(driven, old(masks), masks, v, |children|, false);
    }

    method ChildAbortPermUpdate(c: Link)
      requires Ready() && c in masks
      modifies `masks
      ensures RewrittenChild(driven, old(masks), masks, c, false)
      decreases ReachSet(driven, driven.target[c]), 1
    {
      var lp := masks[c];
      if lp.backup.Saved? {
        masks := masks[c := LinkPerm(lp.backup.perm, lp.backup.shared, NoBackup)];
      }
      assert masks == old(masks)[c := Finished(old(masks)[c], false)];
      AbortPermUpdate(layer.graph.target[c]);
      RewriteChild(driven, old(masks), masks, c, false);
    }

    /** Applied to masks the check has already settled, setting them again only
        drops the backups. */
    method SetPerm(v: Node, perm: Perms, shared: Perms)
      requires Ready() && v in parents
      requires Derived(layer, driven, masks, v, perm, shared) && SettledBelow(layer, driven, masks, v, {})
      modifies `masks
      ensures Rewritten(driven, old(masks), masks, v, true)
      decreases ReachSet(driven, v), 0
    {
      hide Dag;
      if layer.driver[v].Closed? || layer.driver[v].Protocol? {
        NothingBelow(driven, v);
        return;
      }
      var children := layer.graph.children[v];
      for i := 0 to |children|
        invariant RewrittenAt(driven, old(masks), masks, children[..i], true)
      {
        var c := children[i];
        var (curPerm, curShared) := layer.childPerm(v, c, perm, shared);
        ghost var before := masks;
        ChildShrinks(driven, v, c);
        StillSettled(layer, driven, old(masks), masks, v, c, children[..i], perm, shared);
        ChildSetPerm(c, curPerm, curShared);
        RewriteStep(driven, old(masks), before, masks, children, i, true);
      }
      RewriteAll(driven, old(masks), masks, v, |children|, true);
    }

    method ChildSetPerm(c: Link, perm: Perms, shared: Shared)
      requires Ready() && c in masks && Granted(masks[c]) == (perm, shared)
      requires Settled(layer, driven, masks, driven.target[c], {})
      modifies `masks
      ensures RewrittenChild(driven, old(masks), masks, c, true)
      decreases ReachSet(driven, driven.target[c]), 1
    {
      masks := masks[c := LinkPerm(perm, shared, NoBackup)];
      assert masks == old(masks)[c := Finished(old(masks)[c], true)];
      var v := layer.graph.target[c];
      CommittedSettled(layer, driven, old(masks), masks, v);
      var cumulative, cumulativeShared := GetCumulativePerm(v);
      SetPerm(v, cumulative, cumulativeShared);
      RewriteChild(driven, old(masks), masks, c, true);
    }

    /** Either the new masks are in force and every node they lead to agrees with its
        users, or every link is as it was; users stay compatible either way.  A
        failure is only reported if it would have restricted someone more. */
    method ChildTrySetPerm(c: Link, perm: Perms, shared: Shared) returns (reported: bool, ghost ok: bool)
      requires Ready() && c in masks && Steady(driven, masks)
      modifies `masks
      ensures var r := CheckLink(layer, driven, old(masks), c, perm, shared, {});
        ok == r.ok && (reported <==> !r.ok && r.tighten)
      ensures Steady(driven, masks)
      ensures !ok ==> masks == old(masks)
      ensures KeepsBut(driven, old(masks), masks, c)
      ensures ok ==> Granted(masks[c]) == (perm, shared)
      ensures ok ==> Settled(layer, driven, masks, driven.target[c], {})
      ensures ok ==> Grantable(layer, driven, old(masks), c, perm, shared)
      ensures Tree(driven, driven.target[c]) ==> (ok <==> Grantable(layer, driven, old(masks), c, perm, shared))
    {
      hide Dag, ParentsOk, Descended, Tree, Grantable, Compatible, Settled;
      TryExact(layer, driven, masks, c, perm, shared);
      var granted, tighten := ChildCheckPerm(c, perm, shared, {});
      ok := granted;
      ghost var s1 := masks;
      if !granted {
        ChildAbortPermUpdate(c);
        AbortUndoes(driven, old(masks), s1, masks, c);
        reported := tighten;
      } else {
        ChildSetPerm(c, perm, shared);
        SetCommits(layer, driven, old(masks), s1, masks, c);
        reported := false;
      }
    }

    /** The links to move, latest first, with what they take and share together;
        none of them may be frozen. */
    method CollectParents(from: Node, to: Node)
      returns (ok: bool, list: seq<Link>, perm: Perms, shared: Shared)
      requires Valid() && from in parents && to in parents
      ensures ok <==> Movable(layer.graph, stayAtNode, from, to) !! frozen
      ensures ok ==> Elements(list) == Movable(layer.graph, stayAtNode, from, to)
      ensures ok ==> perm == Used(masks, Movable(layer.graph, stayAtNode, from, to))
      ensures ok ==> shared == Allowed(masks, Movable(layer.graph, stayAtNode, from, to))
    {
      list, perm, shared := [], {}, ALL;
      var ps := parents[from];
      ghost var movable := Movable(layer.graph, stayAtNode, from, to);
      CollectedNone(masks, ps, movable);
      for i := 0 to |ps|
        invariant Collected(masks, ps, i, movable, list, perm, shared)
        invariant Elements(list) !! frozen
      {
        var c := ps[i];
        assert c in parents[from];
        var update := ShouldUpdateChild(layer.graph, stayAtNode, c, to);
        CollectedNext(masks, ps, i, movable, list, perm, shared);
        if !update {
          continue;
        }
        if c in frozen {
          return false, list, perm, shared;
        }
        list, perm, shared := [c] + list, perm + masks[c].perm, shared * masks[c].shared;
      }
      ok := true;
      forall c | c in movable ensures c in ps {
        assert c in parents[layer.graph.target[c]];
      }
      CollectedAll(masks, ps, movable, list, perm, shared);
    }

    /** One link changes its target, without any permission check. */
    method ReplaceChildNoperm(c: Link, to: Node)
      requires ParentsOk(layer.graph, parents) && c in layer.graph.target && c !in frozen && to in parents
      modifies `layer, `parents
      ensures layer == old(layer).(graph := old(layer).graph.(target := old(layer).graph.target[c := to]))
      ensures ParentsOk(layer.graph, parents)
    {
      var from := layer.graph.target[c];
      parents := parents[from := Without(parents[from], c)];
      layer := layer.(graph := layer.graph.(target := layer.graph.target[c := to]));
      parents := parents[to := [c] + parents[to]];
    }

    method MoveLinks(list: seq<Link>, to: Node)
      requires ParentsOk(layer.graph, parents) && to in parents
      requires Elements(list) <= layer.graph.target.Keys && Elements(list) !! frozen
      modifies `layer, `parents
      ensures layer == Replaced(old(layer), Elements(list), to)
      ensures ParentsOk(layer.graph, parents)
    {
      RetargetNone(layer.graph, to);
      assert Elements(list[..0]) == {};
      for i := 0 to |list|
        invariant layer == Replaced(old(layer), Elements(list[..i]), to)
        invariant ParentsOk(layer.graph, parents)
      {
        RetargetMore(old(layer).graph, Elements(list[..i]), list[i], to);
        assert Elements(list[..i + 1]) == Elements(list[..i]) + {list[i]};
        ReplaceChildNoperm(list[i], to);
      }
      assert list[..|list|] == list;
    }

    /** Either every movable link now points at `to` and nothing else changed its
        target, or nothing changed at all.  The graph stays acyclic and users stay
        compatible either way. */
    method ReplaceNode(from: Node, to: Node) returns (ok: bool)
      requires Valid() && from in parents && to in parents
      requires Steady(driven, masks)
      modifies `layer, `parents, `driven, `masks
      ensures ok <==> Replaceable(old(layer), old(driven), old(masks), stayAtNode, frozen, from, to)
      ensures Valid() && Steady(driven, masks)
      ensures !ok ==> layer == old(layer) && parents == old(parents) && masks == old(masks)
      ensures ok ==> Movable(old(layer).graph, stayAtNode, from, to) !! frozen
      ensures ok ==> layer == Replaced(old(layer), Movable(old(layer).graph, stayAtNode, from, to), to)
      ensures ok ==> KeepsOutside(old(driven), old(masks), masks, to) && Settled(layer, driven, masks, to, {})
      ensures ok ==> forall c {:trigger layer.graph.target[c]} | c in old(layer).graph.target ::
        && c in layer.graph.target
        && (if old(layer).graph.target[c] == from && c !in stayAtNode
               && forall v | Owns(old(layer).graph, v, c) :: !Reaches(old(layer).graph, to, v)
            then layer.graph.target[c] == to else layer.graph.target[c] == old(layer).graph.target[c])
      ensures var moved := Movable(old(layer).graph, stayAtNode, from, to);
        && (ok ==> MoveFits(old(layer), old(driven), old(masks), moved, to))
        && (Tree(old(driven), to) ==>
              (ok <==> moved !! frozen && MoveFits(old(layer), old(driven), old(masks), moved, to)))
    {
      hide LayerOk, Dag, ParentsOk, Descended, MoveReady, Movable, Replaceable, Tree, MoveFits, Compatible, Settled;
      ReplaceExact(layer, driven, masks, parents, stayAtNode, frozen, from, to);
      ghost var perm, shared;
      var list;
      ok, list, perm, shared := CheckMove(from, to);
      if ok {
        Reattach(list, from, to, perm, shared, old(masks));
        DrivenRetarget(old(layer), Elements(list), to);
        MoveWitness(old(layer), old(driven), old(masks), masks, Elements(list), to);
        MovedLinks(old(layer), stayAtNode, from, to);
      }
    }

    /** All permission checks, before the first link moves. */
    method CheckMove(from: Node, to: Node) returns (ok: bool, list: seq<Link>, ghost perm: Perms, ghost shared: Perms)
      requires Valid() && from in parents && to in parents
      requires Steady(driven, masks)
      modifies `masks
      ensures ok <==> Replaceable(layer, driven, old(masks), stayAtNode, frozen, from, to)
      ensures masks.Keys == old(masks).Keys
      ensures !ok ==> masks == old(masks)
      ensures ok ==> Movable(layer.graph, stayAtNode, from, to) !! frozen
      ensures ok ==> Elements(list) == Movable(layer.graph, stayAtNode, from, to)
      ensures ok ==> MoveReady(layer, driven, old(masks), masks, Elements(list), from, to, perm, shared)
    {
      var used, tolerated;
      ok, list, used, tolerated := CollectParents(from, to);
      perm, shared := used, tolerated;
      if !ok {
        return;
      }
      var moved := Elements(list);
      MovableOutside(layer.graph, stayAtNode, from, to);
      ReplacedOk(layer, moved, to);
      MovedOutside(driven, moved, to);
      ok := CheckOrAbort(to, used, tolerated, moved);
    }

    /** A check of `v` that leaves no trace when it fails. */
    method CheckOrAbort(v: Node, perm: Perms, shared: Shared, ign: set<Link>) returns (ok: bool)
      requires Ready() && v in parents && NoBackups(masks)
      requires IgnoredAbove(driven, ign, ign, v) && BaseOutside(driven, ign, v)
      modifies `masks
      ensures ok == CheckUser(layer, driven, old(masks), v, perm, shared, ign).ok
      ensures Checked(driven, old(masks), masks, v, ign)
      ensures !ok ==> masks == old(masks)
      ensures ok ==> Fits(old(masks), Users(driven, v) - ign, perm, shared)
      ensures ok ==> Serves(layer, driven, masks, v, perm + Used(old(masks), Users(driven, v) - ign),
                             shared * Allowed(old(masks), Users(driven, v) - ign))
      ensures ok ==> SettledBelow(layer, driven, masks, v, ign)
    {
      DescendedDrivers(layer, driven);
      UserChecked(layer, driven, masks, v, perm, shared, ign, ign);
      hide Dag, ParentsOk, Descended;
      var tighten;
      ok, tighten := CheckUpdatePerm(v, perm, shared, ign);
      if !ok {
        ghost var s1 := masks;
        AbortPermUpdate(v);
        AbortRestores(driven, old(masks), s1, masks, v, ign);
      }
    }

    /** The checked links move and the masks they were checked with are set. */
    method Reattach(list: seq<Link>, ghost from: Node, to: Node, ghost perm: Perms, ghost shared: Perms,
                    ghost s0: Masks)
      requires Valid() && to in parents
      requires MoveReady(layer, driven, s0, masks, Elements(list), from, to, perm, shared)
      requires Elements(list) !! frozen
      modifies `layer, `parents, `driven, `masks
      ensures Valid() && Steady(driven, masks)
      ensures layer == Replaced(old(layer), Elements(list), to)
      ensures KeepsOutside(old(driven), s0, masks, to) && Settled(layer, driven, masks, to, {})
    {
      hide LayerOk, Dag, ParentsOk, Descended, Driven;
      MoveChecked(list, from, to, perm, shared, s0);
      SetCumulativePerm(to);
      CommitDone(layer, old(driven), s0, old(masks), masks, to, Elements(list));
    }

    method MoveChecked(list: seq<Link>, ghost from: Node, to: Node, ghost perm: Perms, ghost shared: Perms,
                       ghost s0: Masks)
      requires Valid() && to in parents
      requires MoveReady(layer, driven, s0, masks, Elements(list), from, to, perm, shared)
      requires Elements(list) !! frozen
      modifies `layer, `parents, `driven
      ensures Ready() && to in parents && MovedTo(layer, driven, masks, to)
      ensures layer == Replaced(old(layer), Elements(list), to) && driven == Retarget(old(driven), Elements(list), to)
      ensures OutsideSubtree(old(driven), Elements(list), to)
    {
      hide LayerOk, Dag, Driven, MovedTo, Checked, SettledBelow, Serves, Compatible, Fits;
      MoveDone(layer, driven, s0, masks, Elements(list), from, to, perm, shared);
      MoveLinks(list, to);
      driven := Retarget(driven, Elements(list), to);
      StructureMoved(old(layer), old(driven), layer, driven, parents, Elements(list), to);
      DagMoved(layer, driven, masks, to);
    }

    method SetCumulativePerm(v: Node)
      requires Ready() && v in parents && MovedTo(layer, driven, masks, v)
      modifies `masks
      ensures Rewritten(driven, old(masks), masks, v, true)
    {
      var perm, shared := GetCumulativePerm(v);
      SetPerm(v, perm, shared);
    }
  }

  /** What a check of new masks leaves behind, and when it succeeds. */
  lemma TryExact(e: Layer, g: Graph, st: Masks, c: Link, perm: Perms, shared: Shared)
    requires Checkable(g, st) && Descended(e, g) && c in g.target && Compatible(g, st, {})
    ensures var r := CheckLink(e, g, st, c, perm, shared, {});
      && ChildChecked(g, st, r.masks, c, {})
      && (r.ok ==> Granted(r.masks[c]) == (perm, shared) && Settled(e, g, r.masks, g.target[c], {}))
      && (r.ok ==> Grantable(e, g, st, c, perm, shared))
      && (Tree(g, g.target[c]) && Grantable(e, g, st, c, perm, shared) ==> r.ok)
  {
    DescendedDrivers(e, g);
    LinkExact(e, g, st, c, perm, shared);
    LinkChecked(e, g, st, c, perm, shared, {}, {});
  }

  /** On a tree, links that are free to move can if masks exist with which they may. */
  lemma ReplaceExact(e: Layer, g: Graph, st: Masks, parents: map<Node, seq<Link>>, stayAtNode: set<Link>,
                     frozen: set<Link>, from: Node, to: Node)
    requires LayerOk(e) && g == Driven(e) && Checkable(g, st) && Descended(e, g)
    requires ParentsOk(g, parents) && to in parents
    ensures to in g.children
    ensures var moved := Movable(e.graph, stayAtNode, from, to);
      Tree(g, to) && moved !! frozen && MoveFits(e, g, st, moved, to) ==>
      Replaceable(e, g, st, stayAtNode, frozen, from, to)
  {
    var moved := Movable(e.graph, stayAtNode, from, to);
    if Tree(g, to) && moved !! frozen && MoveFits(e, g, st, moved, to) {
      DescendedDrivers(e, g);
      MovableOutside(e.graph, stayAtNode, from, to);
      ReplacedOk(e, moved, to);
      MoveComplete(e, g, st, moved, to);
    }
  }

  lemma MovedLinks(e: Layer, stayAtNode: set<Link>, from: Node, to: Node)
    ensures var g, g' := e.graph, Replaced(e, Movable(e.graph, stayAtNode, from, to), to).graph;
      forall c {:trigger g'.target[c]} | c in g.target ::
        && c in g'.target
        && (if g.target[c] == from && c !in stayAtNode && forall v | Owns(g, v, c) :: !Reaches(g, to, v)
            then g'.target[c] == to else g'.target[c] == g.target[c])
  {
  }

  lemma MoveWitness(e: Layer, g: Graph, st: Masks, st': Masks, moved: set<Link>, to: Node)
    requires KeepsOutside(g, st, st', to) && Compatible(Retarget(g, moved, to), st', {})
    requires Settled(Replaced(e, moved, to), Retarget(g, moved, to), st', to, {})
    ensures MoveFits(e, g, st, moved, to)
  {
    assert MoveFulfils(e, g, st, st', moved, to);
  }

  lemma DagMoved(e: Layer, g: Graph, st: Masks, to: Node)
    requires MovedTo(e, g, st, to)
    ensures Dag(g)
  {
  }

  lemma StructureMoved(e: Layer, g: Graph, e': Layer, g': Graph, parents: map<Node, seq<Link>>, moved: set<Link>,
                       to: Node)
    requires LayerOk(e) && Descended(e, g) && e' == Replaced(e, moved, to) && g' == Retarget(g, moved, to)
    requires ParentsOk(e'.graph, parents)
    ensures Descended(e', g') && ParentsOk(g', parents)
  {
  }

  /** The check on `to`, ignoring `moved`, went through. */
  ghost predicate MoveReady(e: Layer, g: Graph, s0: Masks, s1: Masks, moved: set<Link>, from: Node, to: Node,
                            perm: Perms, shared: Perms)
  {
    && to in g.children && s0.Keys == g.target.Keys && NoBackups(s0)
    && moved <= g.target.Keys && OutsideSubtree(e.graph, moved, to)
    && (forall c | c in moved :: g.target[c] == from)
    && perm == Used(s0, moved) && shared == Allowed(s0, moved) && Compatible(g, s0, {})
    && Checked(g, s0, s1, to, moved) && SettledBelow(e, g, s1, to, moved)
    && Fits(s0, Users(g, to) - moved, perm, shared)
    && Serves(e, g, s1, to, perm + Used(s0, Users(g, to) - moved), shared * Allowed(s0, Users(g, to) - moved))
  }

  /** The movable ones among the first `i` parents were collected. */
  ghost predicate Collected(st: Masks, ps: seq<Link>, i: nat, movable: set<Link>, list: seq<Link>, perm: Perms,
                            shared: Perms)
    requires i <= |ps|
  {
    && Elements(list) == (set c | c in ps[..i] && c in movable)
    && perm == Used(st, Elements(list)) && shared == Allowed(st, Elements(list))
  }

  lemma CollectedNone(st: Masks, ps: seq<Link>, movable: set<Link>)
    ensures Collected(st, ps, 0, movable, [], {}, ALL)
  {
    CumulativeNone(st);
    assert Elements([]) == {};
  }

  lemma CollectedNext(st: Masks, ps: seq<Link>, i: nat, movable: set<Link>, list: seq<Link>, perm: Perms, shared: Perms)
    requires i < |ps| && ps[i] in st && Collected(st, ps, i, movable, list, perm, shared)
    ensures ps[i] !in movable ==> Collected(st, ps, i + 1, movable, list, perm, shared)
    ensures ps[i] in movable ==>
      Collected(st, ps, i + 1, movable, [ps[i]] + list, perm + st[ps[i]].perm, shared * st[ps[i]].shared)
    ensures Elements([ps[i]] + list) == Elements(list) + {ps[i]}
  {
    assert ps[..i + 1] == ps[..i] + [ps[i]];
    assert Elements([ps[i]] + list) == Elements(list) + {ps[i]};
    CumulativeAdd(st, Elements(list), ps[i]);
  }

  lemma CollectedAll(st: Masks, ps: seq<Link>, movable: set<Link>, list: seq<Link>, perm: Perms, shared: Perms)
    requires Collected(st, ps, |ps|, movable, list, perm, shared) && forall c | c in movable :: c in ps
    ensures Elements(list) == movable
  {
  }

  lemma DescendedDrivers(e: Layer, g: Graph)
    requires Descended(e, g)
    ensures Drivers(e, g)
  {
    forall v | v in g.children ensures NodeDriver(e, g, v) {
      assert e.driver[v] == e.driver[v];
    }
  }

  lemma NothingBelow(g: Graph, v: Node)
    requires v in g.children && g.children[v] == []
    ensures forall l {:trigger Below(g, v, l)} :: !Below(g, v, l)
  {
  }

  /** While some links have been committed, a child of `v` is still settled. */
  lemma StillSettled(e: Layer, g: Graph, s0: Masks, s1: Masks, v: Node, c: Link, cs: seq<Link>,
                     perm: Perms, shared: Perms)
    requires Dag(g) && Owns(g, v, c) && c in s0 && RewrittenAt(g, s0, s1, cs, true)
    requires Derived(e, g, s0, v, perm, shared) && SettledBelow(e, g, s0, v, {})
    ensures Granted(s1[c]) == e.childPerm(v, c, perm, shared)
    ensures Settled(e, g, s1, g.target[c], {})
  {
    var w := g.target[c];
    assert Edge(g, v, w);
    forall u | Reaches(g, w, u) ensures Consistent(e, g, s1, u, {}) {
      EdgeReaches(g, v, w, u);
      assert Consistent(e, g, s0, u, {});
      GrantsConsistent(e, g, s0, s1, u, {});
    }
  }

  lemma CommittedSettled(e: Layer, g: Graph, s0: Masks, s1: Masks, v: Node)
    requires s0.Keys == s1.Keys && forall l {:trigger s1[l]} | l in s0 :: Granted(s1[l]) == Granted(s0[l])
    requires Settled(e, g, s0, v, {})
    ensures Settled(e, g, s1, v, {}) && SettledBelow(e, g, s1, v, {})
    ensures Serves(e, g, s1, v, Used(s1, Users(g, v)), Allowed(s1, Users(g, v)))
  {
    forall u | Reaches(g, v, u) ensures Consistent(e, g, s1, u, {}) {
      assert Consistent(e, g, s0, u, {});
      GrantsConsistent(e, g, s0, s1, u, {});
    }
    ReachesSelf(g, v);
    assert Consistent(e, g, s1, v, {});
    assert Users(g, v) - {} == Users(g, v);
  }

  lemma SetCommits(e: Layer, g: Graph, s0: Masks, s1: Masks, s2: Masks, c: Link)
    requires NoBackups(s0) && ChildChecked(g, s0, s1, c, {}) && Compatible(g, s0, {})
    requires RewrittenChild(g, s1, s2, c, true) && Settled(e, g, s1, g.target[c], {})
    ensures NoBackups(s2) && Compatible(g, s2, {}) && KeepsBut(g, s0, s2, c)
    ensures Settled(e, g, s2, g.target[c], {})
  {
    CommittedSettled(e, g, s1, s2, g.target[c]);
    forall a, b | a in g.target && b in g.target && a != b && g.target[a] == g.target[b]
      ensures Tolerates(s2, a, b)
    {
      assert Tolerates(s1, a, b);
    }
  }

  lemma MovedOutside(g: Graph, moved: set<Link>, to: Node)
    requires OutsideSubtree(g, moved, to)
    ensures IgnoredAbove(g, moved, moved, to) && BaseOutside(g, moved, to)
  {
  }

  lemma AbortRestores(g: Graph, s0: Masks, s1: Masks, s2: Masks, v: Node, base: set<Link>)
    requires NoBackups(s0) && Checked(g, s0, s1, v, base) && Rewritten(g, s1, s2, v, false)
    ensures s2 == s0
  {
  }

  /** Moving the checked links makes a layer whose nodes agree with their users. */
  lemma MoveDone(e: Layer, g: Graph, s0: Masks, s1: Masks, moved: set<Link>, from: Node, to: Node,
                 perm: Perms, shared: Perms)
    requires LayerOk(e) && g == Driven(e) && Dag(g)
    requires MoveReady(e, g, s0, s1, moved, from, to, perm, shared)
    ensures MovedTo(Replaced(e, moved, to), Retarget(g, moved, to), s1, to)
    ensures OutsideSubtree(g, moved, to)
  {
    ReplacedOk(e, moved, to);
    DrivenRetarget(e, moved, to);
    DrivenDag(Replaced(e, moved, to));
    ReplaceCompatible(g, s0, s1, moved, from, to);
    TargetDerived(e, g, s0, s1, moved, to, perm, shared);
    BelowSettled(e, g, s1, moved, to);
    ReplacedSettled(e, moved, to, Retarget(g, moved, to), s1);
  }

  ghost predicate MovedTo(e: Layer, g: Graph, st: Masks, to: Node)
  {
    && LayerOk(e) && g == Driven(e) && Dag(g)
    && Compatible(g, st, {})
    && Serves(e, g, st, to, Used(st, Users(g, to)), Allowed(st, Users(g, to)))
    && SettledBelow(e, g, st, to, {})
  }

  /** Only the drivers matter for what a node serves. */
  lemma ReplacedSettled(e: Layer, moved: set<Link>, to: Node, g: Graph, st: Masks)
    requires SettledBelow(e, g, st, to, {})
    ensures SettledBelow(Replaced(e, moved, to), g, st, to, {})
  {
    forall u | u != to && Reaches(g, to, u) ensures Consistent(Replaced(e, moved, to), g, st, u, {}) {
      assert Consistent(e, g, st, u, {});
    }
  }

  lemma CommitDone(e: Layer, g: Graph, s0: Masks, s1: Masks, s2: Masks, to: Node, moved: set<Link>)
    requires NoBackups(s0) && Checked(g, s0, s1, to, moved) && OutsideSubtree(g, moved, to)
    requires MovedTo(e, Retarget(g, moved, to), s1, to) && Rewritten(Retarget(g, moved, to), s1, s2, to, true)
    ensures NoBackups(s2) && Compatible(Retarget(g, moved, to), s2, {})
    ensures KeepsOutside(g, s0, s2, to) && Settled(e, Retarget(g, moved, to), s2, to, {})
  {
    var g' := Retarget(g, moved, to);
    forall l | l in s0 ensures Below(g', to, l) <==> Below(g, to, l) {
      SameBelow(g, moved, to, l);
    }
    forall l | l in s0 ensures s2[l].backup.NoBackup? {
      assert !Below(g, to, l) ==> s1[l] == s0[l];
    }
    MovedSettled(e, g', s1, to);
    CommittedSettled(e, g', s1, s2, to);
    forall a, b | a in g'.target && b in g'.target && a != b && g'.target[a] == g'.target[b]
      ensures Tolerates(s2, a, b)
    {
      assert Tolerates(s1, a, b);
    }
  }

  lemma MovedSettled(e: Layer, g: Graph, st: Masks, to: Node)
    requires MovedTo(e, g, st, to)
    ensures Settled(e, g, st, to, {})
  {
    assert Users(g, to) - {} == Users(g, to);
    assert Consistent(e, g, st, to, {});
  }

  lemma SameBelow(g: Graph, moved: set<Link>, to: Node, l: Link)
    requires OutsideSubtree(g, moved, to)
    ensures Below(Retarget(g, moved, to), to, l) <==> Below(g, to, l)
  {
    var g' := Retarget(g, moved, to);
    ReachesSelf(g, to);
    if Below(g, to, l) {
      var o :| Reaches(g, to, o) && Owns(g, o, l);
      var n: nat :| Descends(g, to, o, n);
      BelowKept(g, moved, to, to, o, n);
      assert Owns(g', o, l);
    }
    if Below(g', to, l) {
      var o :| Reaches(g', to, o) && Owns(g', o, l);
      var n: nat :| Descends(g', to, o, n);
      BlockGraph.BelowTarget(g, moved, to, to, o, n);
      assert Owns(g, o, l);
    }
  }
}
