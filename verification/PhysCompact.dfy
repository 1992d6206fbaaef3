/** Path compression of the dispatch tree: what phys_page_compact may change. */
module PhysCompact {
  import opened PhysTree

  ghost predicate NodeLeaves(node: Node, leaves: set<nat>)
  {
    forall j {:trigger LeafIn(node[j], leaves)} | 0 <= j < L2_SIZE :: LeafIn(node[j], leaves)
  }

  /** Every leaf of the pool is one of `leaves`. */
  ghost predicate Leaves(nodes: seq<Node>, leaves: set<nat>)
  {
    && UNASSIGNED in leaves
    && forall k {:trigger NodeLeaves(nodes[k], leaves)} | 0 <= k < |nodes| :: NodeLeaves(nodes[k], leaves)
  }

  ghost predicate NoSkip(node: Node)
  {
    forall j | 0 <= j < L2_SIZE :: node[j].skip <= 1
  }

  /** No node inside the Span(i) pages from `lo` skips a level. */
  ghost predicate PlainInside(nodes: seq<Node>, tags: seq<Tag>, lo: nat, i: nat)
  {
    && |nodes| == |tags|
    && forall k {:trigger NoSkip(nodes[k])} | 0 <= k < |nodes| && Inside(tags[k], lo, i) :: NoSkip(nodes[k])
  }

  /** A lookup may change only from "unassigned" to some other page's section. */
  predicate Misdirected(before: nat, after: nat, leaves: set<nat>)
  {
    after == before || (before == UNASSIGNED && after in leaves)
  }

  ghost predicate Compacted(
    nodes: seq<Node>, e: Entry, nodes': seq<Node>, e': Entry, i: nat, lo: nat, leaves: set<nat>)
  {
    forall x: nat {:trigger Walk(nodes', e', i, x)} | lo <= x < lo + Span(i) ::
      Misdirected(Walk(nodes, e, i, x), Walk(nodes', e', i, x), leaves)
  }

  ghost predicate NodeCompacted(
    nodes: seq<Node>, node: Node, nodes': seq<Node>, node': Node, tag: Tag, leaves: set<nat>)
  {
    forall j {:trigger Compacted(nodes, node[j], nodes', node'[j], tag.level, ChildBase(tag, j), leaves)}
      | 0 <= j < L2_SIZE ::
      Compacted(nodes, node[j], nodes', node'[j], tag.level, ChildBase(tag, j), leaves)
  }

  /** A walk ends on a leaf or on "unassigned", even for a page outside the entry's range. */
  lemma {:induction false} WalkLeaf(
    nodes: seq<Node>, tags: seq<Tag>, e: Entry, i: nat, lo: nat, x: nat, leaves: set<nat>)
    requires Shape(nodes, tags) && EntryOk(tags, e, i, lo) && Leaves(nodes, leaves) && LeafIn(e, leaves)
    ensures Walk(nodes, e, i, x) in leaves
    decreases i
  {
    if e.skip != 0 && e.ptr != NIL {
      var k, j := e.ptr, Slot(x, i - e.skip);
      assert NodeOk(tags, nodes[k], tags[k]) && NodeLeaves(nodes[k], leaves);
      assert LeafIn(nodes[k][j], leaves);
      assert EntryOk(tags, nodes[k][j], tags[k].level, ChildBase(tags[k], j));
      WalkLeaf(nodes, tags, nodes[k][j], tags[k].level, ChildBase(tags[k], j), x, leaves);
    }
  }

  /** The loop of phys_page_compact over node `p`, before entry `j`. */
  ghost predicate Compacting(
    nodes0: seq<Node>, nodes: seq<Node>, tags: seq<Tag>, p: nat, j: nat, leaves: set<nat>)
  {
    && |nodes0| == |nodes| && p < |nodes| && j <= L2_SIZE
    && Shape(nodes, tags) && Leaves(nodes, leaves)
    && NodeOk(tags, nodes0[p], tags[p]) && NodeOk(tags, nodes[p], tags[p])
    && NodeCompacted(nodes0, nodes0[p], nodes, nodes[p], tags[p], leaves)
    && (forall k | 0 <= k < L2_SIZE :: nodes[p][k].ptr == NIL <==> nodes0[p][k].ptr == NIL)
    && (forall k {:trigger PlainChild(nodes, tags, p, k)} | j <= k < L2_SIZE :: PlainChild(nodes, tags, p, k))
    && SameOutside(nodes0, nodes, tags, tags[p].base, tags[p].level + 1)
  }

  ghost predicate PlainChild(nodes: seq<Node>, tags: seq<Tag>, p: nat, k: nat)
    requires p < |nodes| == |tags| && k < L2_SIZE
  {
    nodes[p][k].skip <= 1 && PlainInside(nodes, tags, ChildBase(tags[p], k), tags[p].level)
  }

  lemma CompactStart(nodes: seq<Node>, tags: seq<Tag>, p: nat, leaves: set<nat>)
    requires Shape(nodes, tags) && Leaves(nodes, leaves) && p < |nodes|
    requires PlainInside(nodes, tags, tags[p].base, tags[p].level + 1)
    ensures Compacting(nodes, nodes, tags, p, 0, leaves)
  {
    assert NodeOk(tags, nodes[p], tags[p]);
    assert NoSkip(nodes[p]);
    forall k | 0 <= k < L2_SIZE ensures PlainChild(nodes, tags, p, k) {
      forall m | 0 <= m < |nodes| && Inside(tags[m], ChildBase(tags[p], k), tags[p].level)
        ensures NoSkip(nodes[m])
      {
        ChildInside(tags[p], k, tags[m], tags[p].base, tags[p].level + 1);
      }
    }
  }

  /** Skipping entry `j`, or storing it after the subtree below it was compacted. */
  lemma CompactNext(
    nodes0: seq<Node>, cur: seq<Node>, sub: seq<Node>, tags: seq<Tag>, p: nat, j: nat, e: Entry, leaves: set<nat>)
    requires Compacting(nodes0, cur, tags, p, j, leaves) && j < L2_SIZE
    requires Shape(sub, tags) && Leaves(sub, leaves) && LeafIn(e, leaves)
    requires EntryOk(tags, e, tags[p].level, ChildBase(tags[p], j))
    requires e.ptr == NIL <==> cur[p][j].ptr == NIL
    requires SameOutside(cur, sub, tags, ChildBase(tags[p], j), tags[p].level)
    requires Compacted(cur, cur[p][j], sub, e, tags[p].level, ChildBase(tags[p], j), leaves)
    ensures Compacting(nodes0, sub[p := sub[p][j := e]], tags, p, j + 1, leaves)
  {
    var tag := tags[p];
    assert NodeOk(tags, sub[p], tag) && NodeLeaves(sub[p], leaves);
    var next := sub[p := sub[p][j := e]];
    ShapeSet(sub, tags, p, j, e);
    assert NodeOk(tags, next[p], tags[p]);
    forall k | 0 <= k < |next| ensures NodeLeaves(next[k], leaves) { assert NodeLeaves(sub[k], leaves); }
    forall k | 0 <= k < L2_SIZE
      ensures Compacted(nodes0, nodes0[p][k], next, next[p][k], tag.level, ChildBase(tag, k), leaves)
      ensures j + 1 <= k ==> PlainChild(next, tags, p, k)
    {
      CompactNextAt(nodes0, cur, sub, tags, p, j, e, leaves, k);
    }
    RoundOutside(nodes0, cur, next, tags, tags, p, j);
  }

  lemma CompactNextAt(
    nodes0: seq<Node>, cur: seq<Node>, sub: seq<Node>, tags: seq<Tag>, p: nat, j: nat, e: Entry, leaves: set<nat>,
      k: nat)
    requires Compacting(nodes0, cur, tags, p, j, leaves) && j < L2_SIZE && k < L2_SIZE
    requires Shape(sub, tags)
    requires EntryOk(tags, e, tags[p].level, ChildBase(tags[p], j))
    requires SameOutside(cur, sub, tags, ChildBase(tags[p], j), tags[p].level)
    requires Compacted(cur, cur[p][j], sub, e, tags[p].level, ChildBase(tags[p], j), leaves)
    ensures var next := sub[p := sub[p][j := e]];
            && Compacted(nodes0, nodes0[p][k], next, next[p][k], tags[p].level, ChildBase(tags[p], k), leaves)
            && (j + 1 <= k ==> PlainChild(next, tags, p, k))
  {
    var tag, next := tags[p], sub[p := sub[p][j := e]];
    assert Compacted(nodes0, nodes0[p][k], cur, cur[p][k], tag.level, ChildBase(tag, k), leaves);
    if k != j {
      forall m | 0 <= m < |cur| && Inside(tags[m], ChildBase(tag, k), tag.level)
        ensures next[m] == cur[m]
      {
        ChildrenApart(tag, k, j, tags[m]);
      }
      assert EntryOk(tags, cur[p][k], tag.level, ChildBase(tag, k));
    }
    forall x: nat | ChildBase(tag, k) <= x < ChildBase(tag, k) + Span(tag.level)
      ensures Misdirected(Walk(nodes0, nodes0[p][k], tag.level, x), Walk(next, next[p][k], tag.level, x), leaves)
    {
      if k == j {
        WalkFrame(sub, next, tags, e, tag.level, ChildBase(tag, j), x);
      } else {
        WalkFrame(cur, next, tags, cur[p][k], tag.level, ChildBase(tag, k), x);
      }
    }
    assert j + 1 <= k ==> PlainChild(cur, tags, p, k);
  }

  /** An entry that keeps its node: the changes below it show through. */
  lemma KeepEntry(nodes0: seq<Node>, nodes: seq<Node>, tags: seq<Tag>, p: nat, leaves: set<nat>)
    requires Compacting(nodes0, nodes, tags, p, L2_SIZE, leaves)
    ensures Compacted(nodes0, Entry(1, p), nodes, Entry(1, p), tags[p].level + 1, tags[p].base, leaves)
  {
    var tag, e := tags[p], Entry(1, p);
    var i := tag.level + 1;
    forall x: nat | tag.base <= x < tag.base + Span(i)
      ensures Misdirected(Walk(nodes0, e, i, x), Walk(nodes, e, i, x), leaves)
    {
      SlotInside(tag, x);
      var j := Slot(x, tag.level);
      assert Compacted(nodes0, nodes0[p][j], nodes, nodes[p][j], tag.level, ChildBase(tag, j), leaves);
    }
  }

  /** The entry that replaces one whose node has the single valid child `child`. */
  function Collapse(lp: Entry, child: Entry): (r: Entry)
  {
    Entry(if child.skip == 0 then 0 else lp.skip + child.skip, child.ptr)
  }

  /** The node `p` has no valid entry but `v`. */
  ghost predicate OnlyChild(nodes: seq<Node>, p: nat, v: nat)
    requires p < |nodes|
  {
    v < L2_SIZE && forall k | 0 <= k < L2_SIZE && k != v :: nodes[p][k].ptr == NIL
  }

  lemma CollapseOk(nodes: seq<Node>, tags: seq<Tag>, p: nat, v: nat, leaves: set<nat>)
    requires Shape(nodes, tags) && Leaves(nodes, leaves) && p < |nodes|
    requires NodeOk(tags, nodes[p], tags[p]) && OnlyChild(nodes, p, v)
    ensures var e := Collapse(Entry(1, p), nodes[p][v]);
            EntryOk(tags, e, tags[p].level + 1, tags[p].base) && LeafIn(e, leaves)
  {
    var tag, child := tags[p], nodes[p][v];
    assert NodeLeaves(nodes[p], leaves);
    assert EntryOk(tags, child, tag.level, ChildBase(tag, v)) && LeafIn(child, leaves);
    assert tag.level > 0 by {
      var w := if v == 0 then 1 else 0;
      assert EntryOk(tags, nodes[p][w], tag.level, ChildBase(tag, w));
    }
    if child.skip != 0 && child.ptr != NIL {
      ChildInside(tag, v, tags[child.ptr], tag.base, tag.level + 1);
    }
  }

  /** An entry that takes over the only child `v` of its node. */
  lemma CollapseEntry(nodes0: seq<Node>, nodes: seq<Node>, tags: seq<Tag>, p: nat, v: nat, leaves: set<nat>)
    requires Compacting(nodes0, nodes, tags, p, L2_SIZE, leaves) && OnlyChild(nodes, p, v)
    ensures var e := Collapse(Entry(1, p), nodes[p][v]);
            && EntryOk(tags, e, tags[p].level + 1, tags[p].base) && LeafIn(e, leaves)
            && Compacted(nodes0, Entry(1, p), nodes, e, tags[p].level + 1, tags[p].base, leaves)
  {
    CollapseOk(nodes, tags, p, v, leaves);
    var tag, lp := tags[p], Entry(1, p);
    var e, i := Collapse(lp, nodes[p][v]), tag.level + 1;
    forall x: nat | tag.base <= x < tag.base + Span(i)
      ensures Misdirected(Walk(nodes0, lp, i, x), Walk(nodes, e, i, x), leaves)
    {
      SlotInside(tag, x);
      var j := Slot(x, tag.level);
      assert Compacted(nodes0, nodes0[p][j], nodes, nodes[p][j], tag.level, ChildBase(tag, j), leaves);
      assert Misdirected(Walk(nodes0, nodes0[p][j], tag.level, x), Walk(nodes, nodes[p][j], tag.level, x), leaves);
      if j != v {
        WalkLeaf(nodes, tags, e, i, tag.base, x, leaves);
        assert EntryOk(tags, nodes0[p][j], tag.level, ChildBase(tag, j));
      }
    }
  }

  // ---- Nothing is left to compress -----------------------------------------

  /** A valid entry of the node is not its only one. */
  ghost predicate Branching(node: Node)
  {
    forall v {:trigger node[v]} | 0 <= v < L2_SIZE && node[v].ptr != NIL ::
      exists w :: 0 <= w < L2_SIZE && w != v && node[w].ptr != NIL
  }

  /** No node below the entry has a single valid entry. */
  ghost predicate Tight(nodes: seq<Node>, e: Entry, i: nat)
    decreases i
  {
    || e.skip == 0
    || e.ptr == NIL
    || (&& e.skip <= i && e.ptr < |nodes| && Branching(nodes[e.ptr])
        && forall j {:trigger nodes[e.ptr][j]} | 0 <= j < L2_SIZE :: Tight(nodes, nodes[e.ptr][j], i - e.skip))
  }

  lemma {:induction false} TightFrame(nodes: seq<Node>, nodes': seq<Node>, tags: seq<Tag>, e: Entry, i: nat, lo: nat)
    requires Shape(nodes, tags) && EntryOk(tags, e, i, lo)
    requires SameInside(nodes, nodes', tags, lo, i) && Tight(nodes, e, i)
    ensures Tight(nodes', e, i)
    decreases i
  {
    if e.skip != 0 && e.ptr != NIL {
      var tag := tags[e.ptr];
      assert NodeOk(tags, nodes[e.ptr], tag);
      forall j | 0 <= j < L2_SIZE ensures Tight(nodes', nodes[e.ptr][j], tag.level) {
        forall m | 0 <= m < |nodes| && Inside(tags[m], ChildBase(tag, j), tag.level)
          ensures nodes'[m] == nodes[m]
        {
          ChildInside(tag, j, tags[m], lo, i);
        }
        assert EntryOk(tags, nodes[e.ptr][j], tag.level, ChildBase(tag, j));
        TightFrame(nodes, nodes', tags, nodes[e.ptr][j], tag.level, ChildBase(tag, j));
      }
    }
  }

  /** The first `j` entries of node `p` are done. */
  ghost predicate TightTo(nodes: seq<Node>, p: nat, level: nat, j: nat)
    requires p < |nodes| && j <= L2_SIZE
  {
    forall k {:trigger nodes[p][k]} | 0 <= k < j :: Tight(nodes, nodes[p][k], level)
  }

  lemma TightNext(cur: seq<Node>, sub: seq<Node>, tags: seq<Tag>, p: nat, j: nat, e: Entry)
    requires Shape(cur, tags) && Shape(sub, tags) && p < |cur| == |sub| && j < L2_SIZE
    requires EntryOk(tags, e, tags[p].level, ChildBase(tags[p], j))
    requires SameOutside(cur, sub, tags, ChildBase(tags[p], j), tags[p].level)
    requires TightTo(cur, p, tags[p].level, j) && Tight(sub, e, tags[p].level)
    ensures TightTo(sub[p := sub[p][j := e]], p, tags[p].level, j + 1)
  {
    var tag, next := tags[p], sub[p := sub[p][j := e]];
    assert NodeOk(tags, cur[p], tag);
    forall k | 0 <= k < j + 1 ensures Tight(next, next[p][k], tag.level) {
      if k == j {
        TightFrame(sub, next, tags, e, tag.level, ChildBase(tag, j));
      } else {
        forall m | 0 <= m < |cur| && Inside(tags[m], ChildBase(tag, k), tag.level)
          ensures next[m] == cur[m]
        {
          ChildrenApart(tag, k, j, tags[m]);
        }
        assert EntryOk(tags, cur[p][k], tag.level, ChildBase(tag, k));
        assert Tight(cur, cur[p][k], tag.level);
        TightFrame(cur, next, tags, cur[p][k], tag.level, ChildBase(tag, k));
      }
    }
  }

  lemma NilTight(nodes: seq<Node>, e: Entry, i: nat)
    ensures e.skip == 0 || e.ptr == NIL ==> Tight(nodes, e, i)
  {
  }

  lemma OneCounted(nodes: seq<Node>, p: nat, valid: nat, validPtr: nat)
    requires p < |nodes| && Counted(nodes[p], L2_SIZE, valid, validPtr) && valid == 1
    ensures OnlyChild(nodes, p, validPtr) && nodes[p][validPtr].ptr != NIL
  {
  }

  lemma CountedBranching(node: Node, valid: nat, validPtr: nat)
    requires Counted(node, L2_SIZE, valid, validPtr) && valid != 1
    ensures Branching(node)
  {
    if valid > 1 {
      var k, m :| 0 <= k < m < L2_SIZE && node[k].ptr != NIL && node[m].ptr != NIL;
    }
  }

  lemma TightNode(nodes: seq<Node>, p: nat, level: nat)
    requires p < |nodes| && TightTo(nodes, p, level, L2_SIZE) && Branching(nodes[p])
    ensures Tight(nodes, Entry(1, p), level + 1)
  {
    hide Branching;
    var e := Entry(1, p);
    assert forall j {:trigger nodes[e.ptr][j]} | 0 <= j < L2_SIZE :: Tight(nodes, nodes[e.ptr][j], level + 1 - e.skip);
  }

  lemma TightChild(nodes: seq<Node>, lp: Entry, child: Entry, level: nat)
    requires lp.skip == 1 && Tight(nodes, child, level)
    ensures Tight(nodes, Collapse(lp, child), level + 1)
  {
    hide Branching;
    var e := Collapse(lp, child);
    if child.skip != 0 && child.ptr != NIL {
      assert e.ptr == child.ptr && level + 1 - e.skip == level - child.skip;
      assert forall j {:trigger nodes[e.ptr][j]} | 0 <= j < L2_SIZE ::
        Tight(nodes, nodes[e.ptr][j], level + 1 - e.skip);
    }
  }

  lemma TightKept(nodes: seq<Node>, p: nat, level: nat, valid: nat, validPtr: nat)
    requires p < |nodes| && TightTo(nodes, p, level, L2_SIZE) && Counted(nodes[p], L2_SIZE, valid, validPtr)
    ensures valid != 1 ==> Tight(nodes, Entry(1, p), level + 1)
    ensures valid == 1 ==> Tight(nodes, Collapse(Entry(1, p), nodes[p][validPtr]), level + 1)
  {
    hide Tight, Branching;
    if valid != 1 {
      CountedBranching(nodes[p], valid, validPtr);
      TightNode(nodes, p, level);
    } else {
      TightChild(nodes, Entry(1, p), nodes[p][validPtr], level);
    }
  }

  /** What `valid` and `valid_ptr` say about the first `j` entries. */
  ghost predicate Counted(node: Node, j: nat, valid: nat, validPtr: nat)
    requires j <= L2_SIZE
  {
    && (valid == 0 ==> forall k {:trigger node[k]} | 0 <= k < j :: node[k].ptr == NIL)
    && (valid == 1 ==> validPtr < j && node[validPtr].ptr != NIL &&
                       forall k {:trigger node[k]} | 0 <= k < j && k != validPtr :: node[k].ptr == NIL)
    && (valid > 1 ==> exists k, m :: 0 <= k < m < j && node[k].ptr != NIL && node[m].ptr != NIL)
  }

  lemma CountedNone(node: Node)
    ensures Counted(node, 0, 0, L2_SIZE)
  {
  }

  /** Counting one more entry; what becomes of it does not change whether it is valid. */
  lemma CountedNext(node: Node, next: Node, j: nat, valid: nat, validPtr: nat)
    requires j < L2_SIZE && Counted(node, j, valid, validPtr)
    requires forall k {:trigger next[k]} | 0 <= k < L2_SIZE :: next[k].ptr == NIL <==> node[k].ptr == NIL
    ensures if next[j].ptr != NIL then Counted(next, j + 1, valid + 1, j) else Counted(next, j + 1, valid, validPtr)
  {
    if valid == 1 && next[j].ptr != NIL {
      assert next[validPtr].ptr != NIL;
    }
    if valid > 1 {
      var k, m :| 0 <= k < m < j && node[k].ptr != NIL && node[m].ptr != NIL;
      assert next[k].ptr != NIL && next[m].ptr != NIL;
    }
  }

  /** A round that leaves entry `j` as it is. */
  lemma CompactSkip(nodes0: seq<Node>, nodes: seq<Node>, tags: seq<Tag>, p: nat, j: nat, leaves: set<nat>)
    requires Compacting(nodes0, nodes, tags, p, j, leaves) && j < L2_SIZE
    ensures Compacting(nodes0, nodes, tags, p, j + 1, leaves)
  {
  }

  lemma PlainIsLeaves(nodes: seq<Node>, tags: seq<Tag>, leaves: set<nat>, lo: nat, i: nat)
    requires Plain(nodes, leaves) && |nodes| == |tags|
    ensures Leaves(nodes, leaves) && PlainInside(nodes, tags, lo, i)
  {
    forall k | 0 <= k < |nodes| ensures NodeLeaves(nodes[k], leaves) && NoSkip(nodes[k]) {
      assert PlainNode(nodes[k], leaves);
      forall j | 0 <= j < L2_SIZE ensures LeafIn(nodes[k][j], leaves) && nodes[k][j].skip <= 1 {
        assert LeafIn(nodes[k][j], leaves);
      }
    }
  }
}
