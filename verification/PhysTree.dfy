/** The radix tree behind physical-address dispatch: entries, nodes, the walk
    that reads it, and the shape every tree built by phys_page_set keeps.

    Nodes live in one growing pool and point at each other by index.  Each
    node carries a ghost tag, the level it was allocated for and the first
    page it stands for; the shape invariant relates an entry to the tag of the
    node it points to, so no two entries of different spans reach a common
    node. */
module PhysTree {
  import opened Helpers

  const PAGE_BITS := 12
  const PAGE_SIZE := 4096
  const ADDR_SPACE_BITS := 64
  const L2_BITS := 9
  const L2_SIZE := 512
  const LEVELS := 6

  /** PHYS_MAP_NODE_NIL, the largest value of the 26-bit `ptr` field. */
  const NIL := 0x3ff_ffff
  const UNASSIGNED := 0

  /** `skip` counts the levels to the node behind `ptr`; 0 marks a leaf, whose
      `ptr` is a section number. */
  datatype Entry = Entry(skip: nat, ptr: nat)

  type Node = n: seq<Entry> | |n| == L2_SIZE witness seq(L2_SIZE, _ => Entry(0, 0))

  /** The level a node serves and the first page of the range it covers. */
  datatype Tag = Tag(level: nat, base: nat)

  /** Pages covered by one entry of a node at `level`. */
  function Span(level: nat): (r: nat)
    ensures r > 0
  {
    if level == 0 then 1 else L2_SIZE * Span(level - 1)
  }

  /** (index >> (level * L2_BITS)) & (L2_SIZE - 1) */
  function Slot(index: nat, level: nat): (r: nat)
    ensures r < L2_SIZE
  {
    index / Span(level) % L2_SIZE
  }

  /** First page below entry `j` of a node. */
  function ChildBase(tag: Tag, j: nat): (r: nat)
  {
    if j == 0 then tag.base else ChildBase(tag, j - 1) + Span(tag.level)
  }

  /** The loop of phys_page_find: follow `e`, met with `i` levels left. */
  function Walk(nodes: seq<Node>, e: Entry, i: nat, index: nat): (section: nat)
    decreases i
  {
    if e.skip == 0 || i < e.skip then e.ptr
    else if e.ptr == NIL then UNASSIGNED
    else if e.ptr < |nodes| then Walk(nodes, nodes[e.ptr][Slot(index, i - e.skip)], i - e.skip, index)
    else UNASSIGNED
  }

  /** The range of `tag` lies in the Span(i) pages from `lo`. */
  ghost predicate Inside(tag: Tag, lo: nat, i: nat)
  {
    tag.level < i && lo <= tag.base && tag.base + Span(tag.level + 1) <= lo + Span(i)
  }

  /** `e` may stand for the Span(i) pages from `lo`. */
  ghost predicate EntryOk(tags: seq<Tag>, e: Entry, i: nat, lo: nat)
  {
    if e.skip == 0 then e.ptr < NIL && (i > 0 ==> e.ptr != UNASSIGNED)
    else
      && e.skip <= i
      && (e.ptr == NIL ||
          (e.ptr < |tags| && tags[e.ptr].level == i - e.skip && Inside(tags[e.ptr], lo, i)))
  }

  ghost predicate NodeOk(tags: seq<Tag>, node: Node, tag: Tag)
  {
    && tag.base % Span(tag.level + 1) == 0
    && forall j {:trigger EntryOk(tags, node[j], tag.level, ChildBase(tag, j))} | 0 <= j < L2_SIZE ::
         EntryOk(tags, node[j], tag.level, ChildBase(tag, j))
  }

  ghost predicate Shape(nodes: seq<Node>, tags: seq<Tag>)
  {
    && |nodes| == |tags| <= NIL
    && forall k {:trigger NodeOk(tags, nodes[k], tags[k])} | 0 <= k < |nodes| :: NodeOk(tags, nodes[k], tags[k])
  }

  /** The source computes the number of levels from the widths. */
  lemma LevelsOfWidths()
    ensures LEVELS == (ADDR_SPACE_BITS - PAGE_BITS - 1) / L2_BITS + 1
  {
  }

  // ---- Arithmetic of spans -------------------------------------------------

  lemma {:induction false} ChildBaseMul(tag: Tag, j: nat)
    ensures ChildBase(tag, j) == tag.base + j * Span(tag.level)
  {
    if j > 0 {
      ChildBaseMul(tag, j - 1);
      assert j * Span(tag.level) == (j - 1) * Span(tag.level) + Span(tag.level);
    }
  }

  lemma ChildBaseEnd(tag: Tag, j: nat)
    requires j <= L2_SIZE
    ensures tag.base <= ChildBase(tag, j)
    ensures if j < L2_SIZE then ChildBase(tag, j) + Span(tag.level) <= tag.base + Span(tag.level + 1)
            else ChildBase(tag, j) == tag.base + Span(tag.level + 1)
  {
    ChildBaseMul(tag, j);
    MulStrict(j, L2_SIZE, Span(tag.level));
  }

  lemma {:induction false} ChildBaseMono(tag: Tag, j: nat, k: nat)
    requires j < k
    ensures ChildBase(tag, j) + Span(tag.level) <= ChildBase(tag, k)
  {
    if j + 1 < k { ChildBaseMono(tag, j, k - 1); }
  }

  lemma Distribute(q: nat, j: nat, s: nat)
    ensures q * (L2_SIZE * s) + j * s == (q * L2_SIZE + j) * s
  {
    assert q * (L2_SIZE * s) == (q * L2_SIZE) * s;
  }

  lemma SlotDistance(base: nat, x: nat, s: nat)
    requires s > 0 && base % (L2_SIZE * s) == 0 && base <= x < base + L2_SIZE * s
    ensures base + (x / s % L2_SIZE) * s <= x < base + (x / s % L2_SIZE) * s + s
  {
    var q := base / (L2_SIZE * s);
    var d := x - base;
    var j, r := d / s, d % s;
    assert base == q * (L2_SIZE * s) && d == j * s + r;
    SlotAt(q, j, r, s, x);
  }

  lemma SlotAt(q: nat, j: nat, r: nat, s: nat, x: nat)
    requires s > 0 && r < s && x == q * (L2_SIZE * s) + j * s + r && j * s < L2_SIZE * s
    ensures x / s % L2_SIZE == j
  {
    MulStrict(L2_SIZE - 1, j, s);
    Distribute(q, j, s);
    DivUnique(x, s, q * L2_SIZE + j, r);
    DivUnique(q * L2_SIZE + j, L2_SIZE, q, j);
  }

  /** The slot of a page inside the range of a node is the child whose range holds it. */
  lemma SlotInside(tag: Tag, x: nat)
    requires tag.base % Span(tag.level + 1) == 0
    requires tag.base <= x < tag.base + Span(tag.level + 1)
    ensures ChildBase(tag, Slot(x, tag.level)) <= x < ChildBase(tag, Slot(x, tag.level)) + Span(tag.level)
  {
    var s := Span(tag.level);
    SlotDistance(tag.base, x, s);
    ChildBaseMul(tag, Slot(x, tag.level));
  }

  lemma DivUnique(x: nat, m: nat, q: nat, r: nat)
    requires m > 0 && r < m && x == q * m + r
    ensures x / m == q && x % m == r
  {
    var p := x / m;
    assert x == p * m + x % m;
    MulStrict(p, q, m);
    MulStrict(q, p, m);
  }

  /** A child's range is inside its node's range. */
  lemma ChildInside(tag: Tag, j: nat, t: Tag, lo: nat, i: nat)
    requires Inside(tag, lo, i) && j < L2_SIZE && Inside(t, ChildBase(tag, j), tag.level)
    ensures Inside(t, lo, i)
  {
    ChildBaseEnd(tag, j);
  }

  /** Two different children of a node have no node in common. */
  lemma ChildrenApart(tag: Tag, j: nat, k: nat, t: Tag)
    requires j != k && Inside(t, ChildBase(tag, j), tag.level)
    ensures !Inside(t, ChildBase(tag, k), tag.level)
  {
    if j < k { ChildBaseMono(tag, j, k); } else { ChildBaseMono(tag, k, j); }
  }

  // ---- Walks ---------------------------------------------------------------

  /** `nodes'` and `nodes` agree on every node inside the Span(i) pages from `lo`. */
  ghost predicate SameInside(nodes: seq<Node>, nodes': seq<Node>, tags: seq<Tag>, lo: nat, i: nat)
  {
    && |nodes| == |tags| <= |nodes'|
    && forall k {:trigger nodes'[k]} | 0 <= k < |nodes| && Inside(tags[k], lo, i) :: nodes'[k] == nodes[k]
  }

  /** ... and on every node outside. */
  ghost predicate SameOutside(nodes: seq<Node>, nodes': seq<Node>, tags: seq<Tag>, lo: nat, i: nat)
  {
    && |nodes| == |tags| <= |nodes'|
    && forall k {:trigger nodes'[k]} | 0 <= k < |nodes| && !Inside(tags[k], lo, i) :: nodes'[k] == nodes[k]
  }

  /** A walk only looks at nodes inside the range of the entry it starts from. */
  lemma {:induction false} WalkFrame(
    nodes: seq<Node>, nodes': seq<Node>, tags: seq<Tag>, e: Entry, i: nat, lo: nat, x: nat)
    requires Shape(nodes, tags) && EntryOk(tags, e, i, lo)
    requires SameInside(nodes, nodes', tags, lo, i)
    ensures Walk(nodes', e, i, x) == Walk(nodes, e, i, x)
    decreases i
  {
    if e.skip != 0 && e.ptr != NIL {
      var k, j := e.ptr, Slot(x, i - e.skip);
      var tag := tags[k];
      assert NodeOk(tags, nodes[k], tag);
      forall m | 0 <= m < |nodes| && Inside(tags[m], ChildBase(tag, j), tag.level)
        ensures nodes'[m] == nodes[m]
      {
        ChildInside(tag, j, tags[m], lo, i);
      }
      WalkFrame(nodes, nodes', tags, nodes[k][j], tag.level, ChildBase(tag, j), x);
    }
  }

  /** Between the two trees, exactly the pages of [from, to) were given to `leaf`. */
  ghost predicate Filled(
    nodes: seq<Node>, e: Entry, nodes': seq<Node>, e': Entry,
    i: nat, lo: nat, from: nat, to: nat, leaf: nat)
  {
    forall x: nat {:trigger Walk(nodes', e', i, x)} | lo <= x < lo + Span(i) ::
      Walk(nodes', e', i, x) == if from <= x < to then leaf else Walk(nodes, e, i, x)
  }

  /** ... and the same below every entry of one node. */
  ghost predicate NodeFilled(
    nodes: seq<Node>, node: Node, nodes': seq<Node>, node': Node,
    tag: Tag, from: nat, to: nat, leaf: nat)
  {
    forall j {:trigger Filled(nodes, node[j], nodes', node'[j], tag.level, ChildBase(tag, j), from, to, leaf)}
      | 0 <= j < L2_SIZE ::
      Filled(nodes, node[j], nodes', node'[j], tag.level, ChildBase(tag, j), from, to, leaf)
  }

  /** A leaf names one of `leaves`, the sections that are in the tree. */
  predicate LeafIn(e: Entry, leaves: set<nat>)
  {
    e.skip == 0 ==> e.ptr in leaves
  }

  ghost predicate PlainNode(node: Node, leaves: set<nat>)
  {
    forall j {:trigger LeafIn(node[j], leaves)} | 0 <= j < L2_SIZE :: node[j].skip <= 1 && LeafIn(node[j], leaves)
  }

  /** No entry skips a level, as before compaction, and all leaves are known sections. */
  ghost predicate Plain(nodes: seq<Node>, leaves: set<nat>)
  {
    && UNASSIGNED in leaves
    && forall k {:trigger PlainNode(nodes[k], leaves)} | 0 <= k < |nodes| :: PlainNode(nodes[k], leaves)
  }

  lemma SlotUnique(tag: Tag, j: nat, x: nat)
    requires tag.base % Span(tag.level + 1) == 0 && j < L2_SIZE
    requires ChildBase(tag, j) <= x < ChildBase(tag, j) + Span(tag.level)
    ensures Slot(x, tag.level) == j
    ensures tag.base <= x < tag.base + Span(tag.level + 1)
  {
    ChildBaseEnd(tag, j);
    SlotInside(tag, x);
    var k := Slot(x, tag.level);
    if j < k { ChildBaseMono(tag, j, k); } else if k < j { ChildBaseMono(tag, k, j); }
  }

  /** Inside child `j`, only its first page is aligned to a child's span. */
  lemma AlignedChild(tag: Tag, j: nat, x: nat)
    requires tag.base % Span(tag.level + 1) == 0
    requires ChildBase(tag, j) <= x < ChildBase(tag, j) + Span(tag.level)
    ensures x % Span(tag.level) == 0 <==> x == ChildBase(tag, j)
  {
    var s := Span(tag.level);
    var q := tag.base / (L2_SIZE * s);
    assert tag.base == (q * L2_SIZE) * s;
    ChildBaseMul(tag, j);
    assert x == (q * L2_SIZE + j) * s + (x - ChildBase(tag, j));
    DivUnique(x, s, q * L2_SIZE + j, x - ChildBase(tag, j));
  }

  lemma NodeFilledUp(
    nodes: seq<Node>, nodes': seq<Node>, tag: Tag, p: nat, from: nat, to: nat, leaf: nat)
    requires p < |nodes| <= |nodes'| && p != NIL
    requires tag.base % Span(tag.level + 1) == 0
    requires NodeFilled(nodes, nodes[p], nodes', nodes'[p], tag, from, to, leaf)
    ensures Filled(nodes, Entry(1, p), nodes', Entry(1, p), tag.level + 1, tag.base, from, to, leaf)
  {
    var e, i := Entry(1, p), tag.level + 1;
    forall x: nat | tag.base <= x < tag.base + Span(i)
      ensures Walk(nodes', e, i, x) == if from <= x < to then leaf else Walk(nodes, e, i, x)
    {
      SlotInside(tag, x);
      var j := Slot(x, tag.level);
      assert Filled(nodes, nodes[p][j], nodes', nodes'[p][j], tag.level, ChildBase(tag, j), from, to, leaf);
    }
  }

  /** Replacing entry `j` of node `p` after the subtree below it changed. */
  lemma FillChild(
    nodes: seq<Node>, cur: seq<Node>, sub: seq<Node>, next: seq<Node>, tags: seq<Tag>, tags': seq<Tag>,
    p: nat, j: nat, e: Entry, from: nat, mid: nat, to: nat, leaf: nat)
    requires Shape(cur, tags) && Shape(sub, tags') && tags <= tags'
    requires p < |nodes| <= |cur| && j < L2_SIZE
    requires NodeFilled(nodes, nodes[p], cur, cur[p], tags[p], from, mid, leaf)
    requires SameOutside(cur, sub, tags, ChildBase(tags[p], j), tags[p].level)
    requires next == sub[p := sub[p][j := e]]
    requires EntryOk(tags', e, tags[p].level, ChildBase(tags[p], j))
    requires Filled(cur, cur[p][j], sub, e, tags[p].level, ChildBase(tags[p], j), mid, to, leaf)
    requires from <= mid <= to && ChildBase(tags[p], j) <= mid
    requires to <= ChildBase(tags[p], j) + Span(tags[p].level)
    ensures NodeFilled(nodes, nodes[p], next, next[p], tags[p], from, to, leaf)
  {
    var tag := tags[p];
    assert NodeOk(tags, cur[p], tag);
    forall k | 0 <= k < L2_SIZE
      ensures Filled(nodes, nodes[p][k], next, next[p][k], tag.level, ChildBase(tag, k), from, to, leaf)
    {
      FillChildAt(nodes, cur, sub, next, tags, tags', p, j, e, from, mid, to, leaf, k);
    }
  }

  lemma FillChildAt(
    nodes: seq<Node>, cur: seq<Node>, sub: seq<Node>, next: seq<Node>, tags: seq<Tag>, tags': seq<Tag>,
    p: nat, j: nat, e: Entry, from: nat, mid: nat, to: nat, leaf: nat, k: nat)
    requires Shape(cur, tags) && Shape(sub, tags') && tags <= tags'
    requires p < |nodes| <= |cur| && j < L2_SIZE && k < L2_SIZE
    requires NodeOk(tags, cur[p], tags[p])
    requires Filled(nodes, nodes[p][k], cur, cur[p][k], tags[p].level, ChildBase(tags[p], k), from, mid, leaf)
    requires SameOutside(cur, sub, tags, ChildBase(tags[p], j), tags[p].level)
    requires next == sub[p := sub[p][j := e]]
    requires EntryOk(tags', e, tags[p].level, ChildBase(tags[p], j))
    requires Filled(cur, cur[p][j], sub, e, tags[p].level, ChildBase(tags[p], j), mid, to, leaf)
    requires from <= mid <= to && ChildBase(tags[p], j) <= mid
    requires to <= ChildBase(tags[p], j) + Span(tags[p].level)
    ensures Filled(nodes, nodes[p][k], next, next[p][k], tags[p].level, ChildBase(tags[p], k), from, to, leaf)
  {
    var tag := tags[p];
    forall x: nat | ChildBase(tag, k) <= x < ChildBase(tag, k) + Span(tag.level)
      ensures Walk(next, next[p][k], tag.level, x) ==
              if from <= x < to then leaf else Walk(nodes, nodes[p][k], tag.level, x)
    {
      if k == j {
        WalkFrame(sub, next, tags', e, tag.level, ChildBase(tag, j), x);
      } else {
        forall m | 0 <= m < |cur| && Inside(tags[m], ChildBase(tag, k), tag.level)
          ensures next[m] == cur[m]
        {
          ChildrenApart(tag, k, j, tags[m]);
        }
        assert EntryOk(tags, cur[p][k], tag.level, ChildBase(tag, k));
        WalkFrame(cur, next, tags, cur[p][k], tag.level, ChildBase(tag, k), x);
        if k < j { ChildBaseMono(tag, k, j); } else { ChildBaseMono(tag, j, k); }
      }
    }
  }

  lemma ShapeSet(nodes: seq<Node>, tags: seq<Tag>, p: nat, j: nat, e: Entry)
    requires Shape(nodes, tags) && p < |nodes| && j < L2_SIZE
    requires EntryOk(tags, e, tags[p].level, ChildBase(tags[p], j))
    ensures Shape(nodes[p := nodes[p][j := e]], tags)
  {
    assert NodeOk(tags, nodes[p], tags[p]);
    var nodes' := nodes[p := nodes[p][j := e]];
    forall k | 0 <= k < |nodes'| ensures NodeOk(tags, nodes'[k], tags[k]) {
      assert NodeOk(tags, nodes[k], tags[k]);
    }
  }

  /** No page of [from, to) below `e` is assigned. */
  ghost predicate Free(nodes: seq<Node>, e: Entry, i: nat, lo: nat, from: nat, to: nat)
  {
    forall x: nat | lo <= x < lo + Span(i) && from <= x < to :: Walk(nodes, e, i, x) == UNASSIGNED
  }

  lemma FreeChild(
    nodes: seq<Node>, cur: seq<Node>, tag: Tag, p: nat, j: nat, from: nat, mid: nat, to: nat, leaf: nat)
    requires p < |nodes| <= |cur| && p != NIL && j < L2_SIZE
    requires tag.base % Span(tag.level + 1) == 0 && from <= mid
    requires Free(nodes, Entry(1, p), tag.level + 1, tag.base, from, to)
    requires NodeFilled(nodes, nodes[p], cur, cur[p], tag, from, mid, leaf)
    ensures Free(cur, cur[p][j], tag.level, ChildBase(tag, j), mid, to)
  {
    assert Filled(nodes, nodes[p][j], cur, cur[p][j], tag.level, ChildBase(tag, j), from, mid, leaf);
    var e, i := Entry(1, p), tag.level + 1;
    forall x: nat | ChildBase(tag, j) <= x < ChildBase(tag, j) + Span(tag.level) && mid <= x < to
      ensures Walk(cur, cur[p][j], tag.level, x) == UNASSIGNED
    {
      SlotUnique(tag, j, x);
      assert Walk(nodes, e, i, x) == UNASSIGNED;
    }
  }

  /** What storing the new entry `j` of node `p` establishes, once the subtree is done. */
  lemma SlotDone(
    nodes: seq<Node>, cur: seq<Node>, sub: seq<Node>, tags: seq<Tag>, tags': seq<Tag>,
    p: nat, j: nat, e: Entry, from: nat, mid: nat, to: nat, leaf: nat, leaves: set<nat>)
    requires Shape(cur, tags) && Shape(sub, tags') && tags <= tags'
    requires Plain(sub, leaves) && e.skip <= 1 && LeafIn(e, leaves)
    requires p < |nodes| <= |cur| && j < L2_SIZE
    requires NodeOk(tags, cur[p], tags[p])
    requires NodeFilled(nodes, nodes[p], cur, cur[p], tags[p], from, mid, leaf)
    requires SameOutside(cur, sub, tags, ChildBase(tags[p], j), tags[p].level)
    requires EntryOk(tags', e, tags[p].level, ChildBase(tags[p], j))
    requires Filled(cur, cur[p][j], sub, e, tags[p].level, ChildBase(tags[p], j), mid, to, leaf)
    requires from <= mid <= to && ChildBase(tags[p], j) <= mid
    requires to <= ChildBase(tags[p], j) + Span(tags[p].level)
    ensures tags'[p] == tags[p]
    ensures var next := sub[p := sub[p][j := e]];
            && Shape(next, tags') && Plain(next, leaves)
            && NodeOk(tags', next[p], tags[p])
            && NodeFilled(nodes, nodes[p], next, next[p], tags[p], from, to, leaf)
  {
    assert NodeOk(tags', sub[p], tags'[p]) && PlainNode(sub[p], leaves);
    var next := sub[p := sub[p][j := e]];
    FillChild(nodes, cur, sub, next, tags, tags', p, j, e, from, mid, to, leaf);
    ShapeSet(sub, tags', p, j, e);
    assert NodeOk(tags', next[p], tags'[p]);
    forall k | 0 <= k < |next| ensures PlainNode(next[k], leaves) { assert PlainNode(sub[k], leaves); }
  }

  lemma LeafDone(
    nodes: seq<Node>, cur: seq<Node>, tags: seq<Tag>, p: nat, j: nat, from: nat, mid: nat, leaf: nat, leaves: set<nat>)
    requires Shape(cur, tags) && Plain(cur, leaves) && leaf in leaves && UNASSIGNED != leaf < NIL
    requires p < |nodes| <= |cur| && j < L2_SIZE
    requires NodeOk(tags, cur[p], tags[p])
    requires NodeFilled(nodes, nodes[p], cur, cur[p], tags[p], from, mid, leaf)
    requires from <= mid == ChildBase(tags[p], j)
    ensures var next := cur[p := cur[p][j := Entry(0, leaf)]];
            && Shape(next, tags) && Plain(next, leaves)
            && NodeOk(tags, next[p], tags[p])
            && NodeFilled(nodes, nodes[p], next, next[p], tags[p], from, mid + Span(tags[p].level), leaf)
  {
    SlotDone(nodes, cur, cur, tags, tags, p, j, Entry(0, leaf), from, mid, mid + Span(tags[p].level), leaf, leaves);
  }

  /** What one round of the loop in phys_page_set_level starts from. */
  lemma SlotReady(
    nodes: seq<Node>, tags: seq<Tag>, p: nat, j: nat, index: nat, nb: nat, leaves: set<nat>)
    requires Shape(nodes, tags) && Plain(nodes, leaves) && p < |nodes| && j < L2_SIZE && nb > 0
    requires NodeOk(tags, nodes[p], tags[p])
    requires ChildBase(tags[p], j) <= index < ChildBase(tags[p], j) + Span(tags[p].level)
    requires Free(nodes, nodes[p][j], tags[p].level, ChildBase(tags[p], j), index, index + nb)
    ensures index % Span(tags[p].level) == 0 <==> index == ChildBase(tags[p], j)
    ensures ChildBase(tags[p], j) % Span(tags[p].level) == 0
    ensures EntryOk(tags, nodes[p][j], tags[p].level, ChildBase(tags[p], j))
    ensures tags[p].level > 0 ==> nodes[p][j].skip == 1
  {
    AlignedChild(tags[p], j, index);
    AlignedChild(tags[p], j, ChildBase(tags[p], j));
    assert EntryOk(tags, nodes[p][j], tags[p].level, ChildBase(tags[p], j));
    assert PlainNode(nodes[p], leaves) && LeafIn(nodes[p][j], leaves);
    assert Walk(nodes, nodes[p][j], tags[p].level, index) == UNASSIGNED;
  }

  lemma RoundOutside(
    nodes: seq<Node>, cur: seq<Node>, next: seq<Node>, tags: seq<Tag>, tags': seq<Tag>, p: nat, j: nat)
    requires tags <= tags' && |nodes| == |tags| <= |tags'| == |cur| <= |next|
    requires p < |cur| && j < L2_SIZE
    requires SameOutside(nodes, cur, tags, tags'[p].base, tags'[p].level + 1)
    requires forall k | 0 <= k < |cur| && k != p && !Inside(tags'[k], ChildBase(tags'[p], j), tags'[p].level) ::
               next[k] == cur[k]
    ensures SameOutside(nodes, next, tags, tags'[p].base, tags'[p].level + 1)
  {
    var tag := tags'[p];
    forall k | 0 <= k < |nodes| && !Inside(tags[k], tag.base, tag.level + 1)
      ensures next[k] == nodes[k]
    {
      assert tags'[k] == tags[k];
      if Inside(tags'[k], ChildBase(tag, j), tag.level) {
        ChildInside(tag, j, tags'[k], tag.base, tag.level + 1);
      }
    }
  }

  /** A freshly allocated node assigns nothing. */
  lemma FreshNode(nodes: seq<Node>, nodes': seq<Node>, n: nat, level: nat)
    requires n == |nodes| < |nodes'| && n != NIL
    requires forall j | 0 <= j < L2_SIZE ::
               nodes'[n][j] == if level == 0 then Entry(0, UNASSIGNED) else Entry(1, NIL)
    ensures forall x: nat, i | i == level + 1 :: Walk(nodes', Entry(1, n), i, x) == UNASSIGNED
    ensures forall x: nat, i | i == level + 1 :: Walk(nodes, Entry(1, NIL), i, x) == UNASSIGNED
  {
  }

  lemma NodeOkGrow(tags: seq<Tag>, tags': seq<Tag>, node: Node, tag: Tag)
    requires NodeOk(tags, node, tag) && tags <= tags'
    ensures NodeOk(tags', node, tag)
  {
    forall j | 0 <= j < L2_SIZE ensures EntryOk(tags', node[j], tag.level, ChildBase(tag, j)) {
      assert EntryOk(tags, node[j], tag.level, ChildBase(tag, j));
    }
  }

  lemma PlainGrow(nodes: seq<Node>, leaves: set<nat>, leaves': set<nat>)
    requires Plain(nodes, leaves) && leaves <= leaves'
    ensures Plain(nodes, leaves')
  {
    forall k | 0 <= k < |nodes| ensures PlainNode(nodes[k], leaves') {
      assert PlainNode(nodes[k], leaves);
      forall j | 0 <= j < L2_SIZE ensures nodes[k][j].skip <= 1 && LeafIn(nodes[k][j], leaves') {
        assert LeafIn(nodes[k][j], leaves);
      }
    }
  }
}
