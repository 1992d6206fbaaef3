/** Physical-address dispatch: the tree is built in place from the sections of a
    flat view, compacted, and read through a most-recently-used cache. */
module Dispatch {
  import opened Helpers
  import opened PhysTree
  import opened PhysCompact
  import opened DispatchTable

  /** Nodes one call of phys_page_set_level may allocate: one per level on each
      ragged side of the range. */
  function AllocBound(level: nat, index: nat, nb: nat, lo: nat): (r: nat)
  {
    if index == lo || index + nb >= lo + Span(level + 1) then level + 1 else 2 * level + 1
  }

  /** ... and one round of its loop, on a child whose first page is `lo`. */
  function SlotBound(level: nat, index: nat, nb: nat, lo: nat): (r: nat)
  {
    if (index == lo && nb >= Span(level)) || level == 0 then 0 else AllocBound(level - 1, index, nb, lo)
  }

  /** Nodes allocated below one node before the round on child `j`, starting at child `j0`. */
  function Used(tag: Tag, index: nat, nb: nat, j0: nat, j: nat): (r: nat)
  {
    if j == j0 then 0
    else if index + nb <= ChildBase(tag, j) then AllocBound(tag.level, index, nb, tag.base) - 1
    else if index == ChildBase(tag, j0) then 0
    else tag.level
  }

  /** Where a round starts, and that its allocations fit the bound of the whole call. */
  lemma RoundReady(tag: Tag, index: nat, nb: nat, j0: nat, j: nat, cur: nat)
    requires j0 <= j < L2_SIZE
    requires ChildBase(tag, j0) <= index < ChildBase(tag, j0) + Span(tag.level)
    requires cur == if j == j0 then index else Min(index + nb, ChildBase(tag, j))
    requires index + nb - cur > 0
    ensures ChildBase(tag, j) <= cur < ChildBase(tag, j) + Span(tag.level)
    ensures index <= cur
    ensures Used(tag, index, nb, j0, j) + SlotBound(tag.level, cur, index + nb - cur, ChildBase(tag, j))
            <= Used(tag, index, nb, j0, j + 1) < AllocBound(tag.level, index, nb, tag.base)
    ensures Min(index + nb, ChildBase(tag, j) + Span(tag.level)) == Min(index + nb, ChildBase(tag, j + 1))
  {
    ChildBaseEnd(tag, j0);
    if j0 < j { ChildBaseMono(tag, j0, j); }
    ChildBaseEnd(tag, j);
  }

  /** The loop of phys_page_set_level over node `p`, before the round on child
      `j`: the pages [index, index') are filled, nothing else has changed. */
  ghost predicate Rounds(
    nodes0: seq<Node>, tags0: seq<Tag>, nodes: seq<Node>, tags: seq<Tag>,
    p: nat, index: nat, nb: nat, j0: nat, j: nat, index': nat, leaf: nat, leaves: set<nat>)
  {
    && p < |tags0| == |nodes0| <= |nodes|
    && Shape(nodes, tags) && Plain(nodes, leaves) && tags0 <= tags
    && NodeOk(tags, nodes[p], tags[p])
    && j0 <= j <= L2_SIZE && j0 < L2_SIZE
    && ChildBase(tags[p], j0) <= index < ChildBase(tags[p], j0) + Span(tags[p].level)
    && index' == (if j == j0 then index else Min(index + nb, ChildBase(tags[p], j)))
    && NodeFilled(nodes0, nodes0[p], nodes, nodes[p], tags[p], index, index', leaf)
    && SameOutside(nodes0, nodes, tags0, tags[p].base, tags[p].level + 1)
    && |nodes| <= |nodes0| + Used(tags[p], index, nb, j0, j)
  }

  lemma RoundNext(
    nodes0: seq<Node>, tags0: seq<Tag>, cur: seq<Node>, curTags: seq<Tag>, nodes: seq<Node>, tags: seq<Tag>,
    p: nat, index: nat, nb: nat, j0: nat, j: nat, index': nat, index'': nat, leaf: nat, leaves: set<nat>)
    requires Rounds(nodes0, tags0, cur, curTags, p, index, nb, j0, j, index', leaf, leaves)
    requires j < L2_SIZE && index + nb - index' > 0
    requires Shape(nodes, tags) && Plain(nodes, leaves) && curTags <= tags && NodeOk(tags, nodes[p], tags[p])
    requires index'' == Min(index + nb, ChildBase(curTags[p], j) + Span(curTags[p].level))
    requires NodeFilled(nodes0, nodes0[p], nodes, nodes[p], tags[p], index, index'', leaf)
    requires forall k | 0 <= k < |cur| && k != p && !Inside(curTags[k], ChildBase(curTags[p], j), curTags[p].level) ::
               nodes[k] == cur[k]
    requires |nodes| <= |cur| + SlotBound(curTags[p].level, index', index + nb - index', ChildBase(curTags[p], j))
    ensures Rounds(nodes0, tags0, nodes, tags, p, index, nb, j0, j + 1, index'', leaf, leaves)
  {
    RoundReady(curTags[p], index, nb, j0, j, index');
    assert tags[p] == curTags[p];
    RoundOutside(nodes0, cur, nodes, tags0, curTags, p, j);
  }

  /** Where the rounds end. */
  lemma RoundsDone(tag: Tag, index: nat, nb: nat, j0: nat, j: nat, index': nat)
    requires j0 <= j <= L2_SIZE && j0 < L2_SIZE
    requires ChildBase(tag, j0) <= index < ChildBase(tag, j0) + Span(tag.level)
    requires index' == if j == j0 then index else Min(index + nb, ChildBase(tag, j))
    requires index' == index + nb || j == L2_SIZE
    ensures index' == Min(index + nb, tag.base + Span(tag.level + 1))
    ensures Used(tag, index, nb, j0, j) < AllocBound(tag.level, index, nb, tag.base)
  {
    ChildBaseEnd(tag, j0);
    ChildBaseEnd(tag, j);
  }

  /** 2 * LEVELS - 1 */
  const MAX_ALLOC := 11

  class AddressSpaceDispatch {
    var physMap: Entry
    var nodes: seq<Node>
    var nodesAlloc: nat
    var allocHint: nat
    var sections: seq<Section>
    var subpages: seq<seq<nat>>
    var mruSection: Option<nat>
    ghost var tags: seq<Tag>
    ghost var leaves: set<nat>

    ghost function View(): (t: Table)
      reads this
    {
      Table(physMap, nodes, sections, subpages)
    }

    /** Holds while sections are being registered. */
    ghost predicate Open()
      reads this
    {
      && Building(View(), tags, leaves) && NoEmptySubpage(View(), leaves)
      && |nodes| <= nodesAlloc && |nodes| <= MAX_ALLOC * |sections| && |sections| <= PAGE_SIZE
      && mruSection == None
    }

    /** address_space_dispatch_new */
    constructor ()
      ensures Open() && |sections| == 1
      ensures forall addr: nat | addr < TWO64 :: Assigned(View(), addr) == None
    {
      physMap := Entry(1, NIL);
      nodes, tags, nodesAlloc, allocHint := [], [], 0, 16;
      sections, subpages, mruSection := [UNASSIGNED_SECTION], [], None;
      leaves := {UNASSIGNED};
    }

    /** phys_map_node_reserve */
    method NodeReserve(n: nat)
      requires |nodes| <= nodesAlloc
      modifies this`nodesAlloc, this`allocHint
      ensures |nodes| + n <= nodesAlloc
      ensures nodesAlloc == (if |nodes| + n <= old(nodesAlloc) then old(nodesAlloc)
                             else if old(allocHint) > |nodes| + n then old(allocHint) else |nodes| + n)
      ensures allocHint == if |nodes| + n <= old(nodesAlloc) then old(allocHint) else nodesAlloc
    {
      if |nodes| + n > nodesAlloc {
        nodesAlloc := if allocHint > |nodes| + n then allocHint else |nodes| + n;
        allocHint := nodesAlloc;
      }
    }

    /** phys_map_node_alloc; the preconditions are its two assertions. */
    method NodeAlloc(leaf: bool, ghost tag: Tag, ghost leaves: set<nat>) returns (ret: nat)
      requires Shape(nodes, tags) && Plain(nodes, leaves)
      requires |nodes| < NIL && |nodes| < nodesAlloc
      requires tag.base % Span(tag.level + 1) == 0 && (leaf <==> tag.level == 0)
      modifies this`nodes, this`tags
      ensures ret == |old(nodes)| && |nodes| == ret + 1
      ensures nodes[..ret] == old(nodes) && tags == old(tags) + [tag]
      ensures Shape(nodes, tags) && Plain(nodes, leaves)
      ensures forall j | 0 <= j < L2_SIZE ::
                nodes[ret][j] == if leaf then Entry(0, UNASSIGNED) else Entry(1, NIL)
    {
      ret := |nodes|;
      var e := Entry(if leaf then 0 else 1, if leaf then UNASSIGNED else NIL);
      var node: Node := seq(L2_SIZE, _ => e);
      nodes := nodes + [node];
      tags := tags + [tag];
      assert NodeOk(tags, nodes[ret], tag);
      forall k | 0 <= k < |nodes| ensures NodeOk(tags, nodes[k], tags[k]) && PlainNode(nodes[k], leaves) {
        if k < ret {
          assert NodeOk(old(tags), old(nodes)[k], old(tags)[k]) && PlainNode(old(nodes)[k], leaves);
          NodeOkGrow(old(tags), tags, nodes[k], tags[k]);
        }
      }
    }

    /** One round of the loop in phys_page_set_level, on entry `j` of node `p`. */
    method SetSlot(
      p: nat, j: nat, index: nat, nb: nat, leaf: nat, level: nat,
      ghost nodes1: seq<Node>, ghost from: nat, ghost leaves: set<nat>)
      returns (index': nat, nb': nat)
      requires Shape(nodes, tags) && Plain(nodes, leaves)
      requires p < |nodes1| <= |nodes| && tags[p].level == level
      requires j < L2_SIZE && nb != 0 && from <= index
      requires ChildBase(tags[p], j) <= index < ChildBase(tags[p], j) + Span(level)
      requires UNASSIGNED != leaf < NIL && leaf in leaves
      requires NodeOk(tags, nodes[p], tags[p])
      requires NodeFilled(nodes1, nodes1[p], nodes, nodes[p], tags[p], from, index, leaf)
      requires Free(nodes, nodes[p][j], level, ChildBase(tags[p], j), index, index + nb)
      requires |nodes| + SlotBound(level, index, nb, ChildBase(tags[p], j)) <= Min(nodesAlloc, NIL)
      modifies this`nodes, this`tags
      ensures index' == Min(index + nb, ChildBase(old(tags)[p], j) + Span(level)) && nb' == index + nb - index'
      ensures Shape(nodes, tags) && Plain(nodes, leaves) && old(tags) <= tags
      ensures NodeOk(tags, nodes[p], tags[p])
      ensures NodeFilled(nodes1, nodes1[p], nodes, nodes[p], tags[p], from, index', leaf)
      ensures forall k | 0 <= k < |old(nodes)| && k != p && !Inside(old(tags)[k], ChildBase(old(tags)[p], j), level) ::
                nodes[k] == old(nodes)[k]
      ensures |nodes| <= |old(nodes)| + SlotBound(level, index, nb, ChildBase(old(tags)[p], j))
      decreases level, 0
    {
      ghost var lo := ChildBase(tags[p], j);
      var step := Span(level);
      SlotReady(nodes, tags, p, j, index, nb, leaves);
      if index % step == 0 && nb >= step {
        index', nb' := index + step, nb - step;
        LeafDone(nodes1, nodes, tags, p, j, from, index, leaf, leaves);
        nodes := nodes[p := nodes[p][j := Entry(0, leaf)]];
      } else {
        var e;
        e, index', nb' := SetLevel(nodes[p][j], index, nb, leaf, level - 1, lo, leaves);
        SlotDone(nodes1, old(nodes), nodes, old(tags), tags, p, j, e, from, index, index', leaf, leaves);
        nodes := nodes[p := nodes[p][j := e]];
      }
    }

    /** One round of the loop in phys_page_set_level keeps the loop's invariant. */
    method SetRound(
      p: nat, j: nat, index': nat, nb': nat, leaf: nat, level: nat,
      ghost nodes0: seq<Node>, ghost tags0: seq<Tag>, ghost index: nat, ghost nb: nat, ghost j0: nat,
      ghost leaves: set<nat>)
      returns (index'': nat, nb'': nat)
      requires p < |tags0| && level == tags0[p].level && UNASSIGNED != leaf < NIL && leaf in leaves
      requires Rounds(nodes0, tags0, nodes, tags, p, index, nb, j0, j, index', leaf, leaves)
      requires nb' == index + nb - index' > 0 && j < L2_SIZE
      requires Free(nodes0, Entry(1, p), level + 1, tags0[p].base, index, index + nb)
      requires |nodes0| + AllocBound(level, index, nb, tags0[p].base) - 1 <= Min(nodesAlloc, NIL)
      modifies this`nodes, this`tags
      ensures Rounds(nodes0, tags0, nodes, tags, p, index, nb, j0, j + 1, index'', leaf, leaves)
      ensures nb'' == index + nb - index''
      decreases level, 1
    {
      ghost var tag := tags[p];
      RoundReady(tag, index, nb, j0, j, index');
      FreeChild(nodes0, nodes, tag, p, j, index, index', index + nb, leaf);
      index'', nb'' := SetSlot(p, j, index', nb', leaf, level, nodes0, index, leaves);
      RoundNext(nodes0, tags0, old(nodes), old(tags), nodes, tags, p, index, nb, j0, j, index', index'', leaf, leaves);
    }

    /** The loop of phys_page_set_level over the entries of node `p`. */
    method SetNode(p: nat, index: nat, nb: nat, leaf: nat, level: nat, ghost leaves: set<nat>)
      returns (index': nat, nb': nat)
      requires Shape(nodes, tags) && Plain(nodes, leaves)
      requires p < |nodes| && tags[p].level == level && NodeOk(tags, nodes[p], tags[p])
      requires tags[p].base <= index < tags[p].base + Span(level + 1)
      requires UNASSIGNED != leaf < NIL && leaf in leaves
      requires Free(nodes, Entry(1, p), level + 1, tags[p].base, index, index + nb)
      requires |nodes| + AllocBound(level, index, nb, tags[p].base) - 1 <= Min(nodesAlloc, NIL)
      modifies this`nodes, this`tags
      ensures index' == Min(index + nb, old(tags)[p].base + Span(level + 1)) && nb' == index + nb - index'
      ensures Shape(nodes, tags) && Plain(nodes, leaves) && old(tags) <= tags
      ensures Filled(old(nodes), Entry(1, p), nodes, Entry(1, p), level + 1, tags[p].base, index, index', leaf)
      ensures SameOutside(old(nodes), nodes, old(tags), tags[p].base, level + 1)
      ensures |nodes| <= |old(nodes)| + AllocBound(level, index, nb, old(tags)[p].base) - 1
      decreases level, 2
    {
      index', nb' := index, nb;
      SlotInside(tags[p], index);
      var j := Slot(index, level);
      ghost var j0 := j;
      while nb' != 0 && j < L2_SIZE
        invariant j <= L2_SIZE && nb' == index + nb - index'
        invariant Rounds(old(nodes), old(tags), nodes, tags, p, index, nb, j0, j, index', leaf, leaves)
        decreases L2_SIZE - j
      {
        index', nb' := SetRound(p, j, index', nb', leaf, level, old(nodes), old(tags), index, nb, j0, leaves);
        j := j + 1;
      }
      RoundsDone(tags[p], index, nb, j0, j, index');
      NodeFilledUp(old(nodes), nodes, tags[p], p, index, index', leaf);
    }

    /** phys_page_set_level: give the pages [index, index + nb) below `lp` to
        section `leaf`.  `lp` is passed by value and handed back, `index` and
        `nb` are the two cursors the source passes by reference; `lo` is the
        first page below `lp`. */
    method SetLevel(
      lp: Entry, index: nat, nb: nat, leaf: nat, level: nat, ghost lo: nat, ghost leaves: set<nat>)
      returns (lp': Entry, index': nat, nb': nat)
      requires Shape(nodes, tags) && Plain(nodes, leaves)
      requires EntryOk(tags, lp, level + 1, lo) && lp.skip == 1 && lo % Span(level + 1) == 0
      requires lo <= index < lo + Span(level + 1)
      requires UNASSIGNED != leaf < NIL && leaf in leaves
      requires Free(nodes, lp, level + 1, lo, index, index + nb)
      requires |nodes| + AllocBound(level, index, nb, lo) <= Min(nodesAlloc, NIL)
      modifies this`nodes, this`tags
      ensures index' == Min(index + nb, lo + Span(level + 1)) && nb' == index + nb - index'
      ensures Shape(nodes, tags) && Plain(nodes, leaves) && old(tags) <= tags
      ensures EntryOk(tags, lp', level + 1, lo) && lp'.skip == 1
      ensures Filled(old(nodes), lp, nodes, lp', level + 1, lo, index, index', leaf)
      ensures SameOutside(old(nodes), nodes, old(tags), lo, level + 1)
      ensures |nodes| <= |old(nodes)| + AllocBound(level, index, nb, lo)
      decreases level, 3
    {
      lp' := lp;
      if lp.skip != 0 && lp.ptr == NIL {
        var n := NodeAlloc(level == 0, Tag(level, lo), leaves);
        lp' := lp.(ptr := n);
        FreshNode(old(nodes), nodes, n, level);
      }
      assert NodeOk(tags, nodes[lp'.ptr], tags[lp'.ptr]);
      ghost var nodes1 := nodes;
      index', nb' := SetNode(lp'.ptr, index, nb, leaf, level, leaves);
    }

    /** phys_page_compact: if the node behind `lp` has a single valid entry, `lp`
        takes it over.  `lp` stands for the Span(i) pages from `lo`. */
    method Compact(lp: Entry, ghost i: nat, ghost lo: nat, ghost leaves: set<nat>) returns (lp': Entry)
      requires Shape(nodes, tags) && Leaves(nodes, leaves) && PlainInside(nodes, tags, lo, i)
      requires EntryOk(tags, lp, i, lo) && lp.skip == 1
      modifies this`nodes
      ensures |nodes| == |old(nodes)| && Shape(nodes, tags) && Leaves(nodes, leaves)
      ensures EntryOk(tags, lp', i, lo) && LeafIn(lp', leaves) && (lp'.ptr == NIL <==> lp.ptr == NIL)
      ensures Compacted(old(nodes), lp, nodes, lp', i, lo, leaves) && Tight(nodes, lp', i)
      ensures SameOutside(old(nodes), nodes, tags, lo, i)
      decreases i, 0
    {
      hide Tight, Counted;
      lp' := lp;
      if lp.ptr == NIL {
        assert Tight(nodes, lp, i) by { NilTight(nodes, lp, i); }
        return;
      }
      var p := lp.ptr;
      CompactStart(nodes, tags, p, leaves);
      CountedNone(nodes[p]);
      var validPtr: nat, valid: nat, j: nat := L2_SIZE, 0, 0;
      while j < L2_SIZE
        invariant j <= L2_SIZE && Compacting(old(nodes), nodes, tags, p, j, leaves)
        invariant Counted(nodes[p], j, valid, validPtr) && TightTo(nodes, p, tags[p].level, j)
      {
        ghost var before := nodes[p];
        if nodes[p][j].ptr != NIL && nodes[p][j].skip != 0 {
          CompactSlot(p, j, old(nodes), leaves);
        } else {
          CompactSkip(old(nodes), nodes, tags, p, j, leaves);
          NilTight(nodes, nodes[p][j], tags[p].level);
        }
        CountedNext(before, nodes[p], j, valid, validPtr);
        if nodes[p][j].ptr != NIL {
          validPtr, valid := j, valid + 1;
        }
        j := j + 1;
      }
      TightKept(nodes, p, tags[p].level, valid, validPtr);
      if valid != 1 {
        KeepEntry(old(nodes), nodes, tags, p, leaves);
        return;
      }
      // The source also gives up when the sum of skips would not fit its 6 bits; with
      // LEVELS == 6 that test is constantly false, and EntryOk bounds the sum by i.
      OneCounted(nodes, p, valid, validPtr);
      CollapseEntry(old(nodes), nodes, tags, p, validPtr, leaves);
      var child := nodes[p][validPtr];
      lp' := lp.(ptr := child.ptr);
      if child.skip == 0 {
        lp' := lp'.(skip := 0);
      } else {
        lp' := lp'.(skip := lp.skip + child.skip);
      }
    }

    /** The recursive call of phys_page_compact on entry `j` of node `p`. */
    method CompactSlot(p: nat, j: nat, ghost nodes0: seq<Node>, ghost leaves: set<nat>)
      requires Compacting(nodes0, nodes, tags, p, j, leaves) && j < L2_SIZE
      requires nodes[p][j].ptr != NIL && nodes[p][j].skip != 0
      requires TightTo(nodes, p, tags[p].level, j)
      modifies this`nodes
      ensures Compacting(nodes0, nodes, tags, p, j + 1, leaves) && TightTo(nodes, p, tags[p].level, j + 1)
      ensures nodes[p] == old(nodes)[p][j := nodes[p][j]] && nodes[p][j].ptr != NIL
      decreases tags[p].level, 1
    {
      assert PlainChild(nodes, tags, p, j);
      assert EntryOk(tags, nodes[p][j], tags[p].level, ChildBase(tags[p], j));
      var e := Compact(nodes[p][j], tags[p].level, ChildBase(tags[p], j), leaves);
      CompactNext(nodes0, old(nodes), nodes, tags, p, j, e, leaves);
      TightNext(old(nodes), nodes, tags, p, j, e);
      nodes := nodes[p := nodes[p][j := e]];
    }

    /** phys_page_set: at most MAX_ALLOC nodes are allocated, so reserving
        3 * LEVELS makes both assertions of phys_map_node_alloc hold throughout. */
    method PageSet(index: nat, nb: nat, leaf: nat, ghost leaves': set<nat>)
      requires Shape(nodes, tags) && Plain(nodes, leaves')
      requires EntryOk(tags, physMap, LEVELS, 0) && physMap.skip == 1
      requires nb > 0 && index + nb <= PAGES && UNASSIGNED != leaf < NIL && leaf in leaves'
      requires Free(nodes, physMap, LEVELS, 0, index, index + nb)
      requires |nodes| <= nodesAlloc && |nodes| + MAX_ALLOC <= NIL
      modifies this`physMap, this`nodes, this`tags, this`nodesAlloc, this`allocHint
      ensures Shape(nodes, tags) && Plain(nodes, leaves')
      ensures EntryOk(tags, physMap, LEVELS, 0) && physMap.skip == 1
      ensures Filled(old(nodes), old(physMap), nodes, physMap, LEVELS, 0, index, index + nb, leaf)
      ensures |nodes| <= |old(nodes)| + MAX_ALLOC && |nodes| <= nodesAlloc
    {
      SpanTop();
      NodeReserve(3 * LEVELS);
      var i, n;
      physMap, i, n := SetLevel(physMap, index, nb, leaf, LEVELS - 1, 0, leaves');
    }

    /** phys_section_add; `ok` is false where the source's assertion on the
        number of sections would stop the program. */
    method SectionAdd(section: Section) returns (ok: bool, n: nat)
      modifies this`sections
      ensures ok <==> |old(sections)| < PAGE_SIZE
      ensures n == |old(sections)|
      ensures sections == if ok then old(sections) + [section] else old(sections)
    {
      ok, n := |sections| < PAGE_SIZE, |sections|;
      if ok {
        sections := sections + [section];
      }
    }

    /** register_multipage */
    method RegisterMultipage(section: Section) returns (ok: bool)
      requires Open() && InSpace(section) && PageAligned(section) && section.mr.DeviceMem?
      requires Unclaimed(View(), section)
      modifies this
      ensures ok <==> |old(sections)| < PAGE_SIZE
      ensures !ok ==> sections == old(sections)
      ensures ok ==> Open() && |sections| == |old(sections)| + 1
      ensures ok ==> Registered(old(View()), View(), section)
    {
      UnclaimedPages(View(), tags, leaves, section);
      var n;
      ok, n := SectionAdd(section);
      if !ok {
        return;
      }
      var numPages := section.size / PAGE_SIZE;
      ghost var leaves' := leaves + {n};
      PlainGrow(nodes, leaves, leaves');
      PageSet(section.offset / PAGE_SIZE, numPages, n, leaves');
      MultipageDone(old(View()), View(), old(tags), tags, leaves, section);
      leaves := leaves';
    }

    /** subpage_register */
    method SubpageRegister(id: nat, start: nat, end: nat, section: nat) returns (ret: int)
      requires id < |subpages| && |subpages[id]| == PAGE_SIZE
      modifies this`subpages
      ensures |subpages| == |old(subpages)| && |subpages[id]| == PAGE_SIZE
      ensures subpages == old(subpages)[id := subpages[id]]
      ensures ret == if start >= PAGE_SIZE || end >= PAGE_SIZE then -1 else 0
      ensures forall k | 0 <= k < PAGE_SIZE ::
                subpages[id][k] == if ret == 0 && start <= k <= end then section else old(subpages)[id][k]
    {
      if start >= PAGE_SIZE || end >= PAGE_SIZE {
        return -1;
      }
      var idx := start;
      while idx <= end
        invariant start <= idx && (idx <= end + 1 || idx == start)
        invariant |subpages| == |old(subpages)| && |subpages[id]| == PAGE_SIZE
        invariant subpages == old(subpages)[id := subpages[id]]
        invariant forall k | 0 <= k < PAGE_SIZE ::
                    subpages[id][k] == if start <= k < idx then section else old(subpages)[id][k]
      {
        var sub: seq<nat> := subpages[id];
        sub := sub[idx := section];
        subpages := subpages[id := sub];
        idx := idx + 1;
      }
      return 0;
    }

    /** Holds between the two halves of register_subpage: subpage `id`, behind
        leaf `p`, may still have no assigned byte. */
    ghost predicate HalfOpen(id: nat, p: nat)
      reads this
    {
      && Building(View(), tags, leaves) && NoEmptySubpageBut(View(), leaves, id)
      && |nodes| <= nodesAlloc && |nodes| <= MAX_ALLOC * |sections| && |sections| <= PAGE_SIZE
      && mruSection == None
      && p in leaves && LeafOk(View(), p) && sections[p].mr == SubpageMem(id)
    }

    /** Turn the free page at `base` into a subpage: subpage_init and phys_page_set. */
    method SplitPage(base: nat) returns (ok: bool, id: nat)
      requires Open() && base % PAGE_SIZE == 0 && base < TWO64
      requires Walk(nodes, physMap, LEVELS, PageOf(base)) == UNASSIGNED
      modifies this
      ensures ok <==> |old(sections)| < PAGE_SIZE
      ensures !ok ==> sections == old(sections)
      ensures ok ==> HalfOpen(id, |old(sections)|) && |sections| == |old(sections)| + 1
      ensures ok ==> sections[|old(sections)|] == Section(SubpageMem(id), base, PAGE_SIZE, 0)
      ensures ok ==> SameAssigned(old(View()), View())
    {
      id := |subpages|;
      subpages := subpages + [ZeroSubpage()];
      var subsection := Section(SubpageMem(id), base, PAGE_SIZE, 0);
      var n;
      ok, n := SectionAdd(subsection);
      if !ok {
        return;
      }
      ghost var leaves' := leaves + {n};
      PlainGrow(nodes, leaves, leaves');
      PageSet(base / PAGE_SIZE, 1, n, leaves');
      SplitIsLeafAdded(old(View()), View(), tags, leaves, base);
      SplitDone(old(View()), View(), old(tags), tags, leaves, subsection);
      leaves := leaves';
      assert LeafOk(View(), n);
    }

    /** The first half of register_subpage: find the subpage of `addr`, or make one. */
    method SubpageOf(addr: nat) returns (ok: bool, id: nat, ghost p: nat)
      requires Open() && addr < TWO64 && Assigned(View(), addr) == None
      modifies this
      ensures !ok ==> |sections| == PAGE_SIZE
      ensures |old(sections)| < PAGE_SIZE ==> ok
      ensures |old(sections)| <= |sections| <= |old(sections)| + 1
      ensures ok ==> HalfOpen(id, p) && Contains(sections[p], addr)
      ensures ok ==> SameAssigned(old(View()), View())
    {
      var base := addr - addr % PAGE_SIZE;
      FreeByte(View(), tags, leaves, base, addr);
      var existing := PageFind(base);
      assert sections[existing].mr.SubpageMem? || sections[existing].mr.UnassignedMem?;
      if !sections[existing].mr.SubpageMem? {
        p := |sections|;
        ok, id := SplitPage(base);
      } else {
        ok, id, p := true, sections[existing].mr.id, existing;
      }
    }

    /** register_subpage, for a section inside one page. */
    method RegisterSubpage(section: Section) returns (ok: bool)
      requires Open() && InSpace(section) && section.mr.DeviceMem?
      requires PageOf(section.offset) == PageOf(section.offset + section.size - 1)
      requires Unclaimed(View(), section)
      modifies this
      ensures ok ==> Open() && Registered(old(View()), View(), section)
      ensures |old(sections)| + 2 <= PAGE_SIZE ==> ok
      ensures |sections| <= |old(sections)| + 2
      ensures !ok ==> |sections| == PAGE_SIZE
    {
      var id;
      ghost var p;
      ok, id, p := SubpageOf(section.offset);
      if !ok {
        return;
      }
      ghost var mid := View();
      var start := section.offset % PAGE_SIZE;
      var end := start + section.size - 1;
      AlignedContains(sections[p], section.offset + section.size - 1);
      AlignedContains(sections[p], section.offset);
      ByteIndex(sections[p].offset, section.offset);
      var n;
      ok, n := SectionAdd(section);
      if !ok {
        return;
      }
      var ret := SubpageRegister(id, start, end, n);
      BytesDone(mid, View(), tags, leaves, p, section);
    }

    /** phys_page_find */
    method PageFind(addr: nat) returns (n: nat)
      requires TableOk(View(), tags, leaves) && addr < TWO64
      ensures n == Find(View(), addr) && n < |sections|
    {
      var lp, index, i: nat := physMap, addr / PAGE_SIZE, LEVELS;
      ghost var lo: nat := 0;
      FindLeaf(View(), tags, leaves, addr);
      WalkLeaf(nodes, tags, physMap, LEVELS, 0, index, leaves);
      ghost var w := Walk(nodes, physMap, LEVELS, index);
      assert w != UNASSIGNED ==> LeafOk(View(), w);
      while lp.skip != 0 && i - lp.skip >= 0
        invariant EntryOk(tags, lp, i, lo)
        invariant Walk(nodes, lp, i, index) == w
        decreases i
      {
        i := i - lp.skip;
        if lp.ptr == NIL {
          return UNASSIGNED;
        }
        assert NodeOk(tags, nodes[lp.ptr], tags[lp.ptr]);
        lo := ChildBase(tags[lp.ptr], Slot(index, i));
        lp := nodes[lp.ptr][Slot(index, i)];
        assert EntryOk(tags, lp, i, lo);
      }
      n := if SectionCovers(sections[lp.ptr], addr) then lp.ptr else UNASSIGNED;
    }

    /** "register first subpage" of flatview_add_to_dispatch; `done` bytes are registered. */
    method AddFirstSubpage(section: Section) returns (ok: bool, done: nat)
      requires Open() && InSpace(section) && section.mr.DeviceMem? && Unclaimed(View(), section)
      modifies this
      ensures done <= section.size && (done == section.size || (section.offset + done) % PAGE_SIZE == 0)
      ensures ok ==> Open() && Registered(old(View()), View(), Head(section, done))
      ensures |old(sections)| + 2 <= PAGE_SIZE ==> ok
      ensures |sections| <= |old(sections)| + 2
      ensures !ok ==> |sections| == PAGE_SIZE
    {
      ok, done := true, 0;
      if section.offset % PAGE_SIZE != 0 {
        var left := PAGE_SIZE - section.offset % PAGE_SIZE;
        done := if left < section.size then left else section.size;
        ok := RegisterSubpage(Head(section, done));
      }
    }

    /** flatview_add_to_dispatch: a subpage, whole pages, and another subpage. */
    method AddToDispatch(section: Section) returns (ok: bool)
      requires Open() && InSpace(section) && section.mr.DeviceMem? && Unclaimed(View(), section)
      modifies this
      ensures ok ==> Open() && Registered(old(View()), View(), section)
      ensures |old(sections)| + 5 <= PAGE_SIZE ==> ok
      ensures |sections| <= |old(sections)| + 5
      ensures !ok ==> |sections| == PAGE_SIZE
    {
      var done;
      ok, done := AddFirstSubpage(section);
      if !ok || done == section.size {
        return;
      }
      StillUnclaimed(old(View()), View(), section, done);
      ghost var mid := View();
      ok := AddRemaining(Tail(section, done));
      if ok {
        Advance(old(View()), mid, View(), section, done, section.size - done);
      }
    }

    /** The rest of flatview_add_to_dispatch, for a page-aligned remainder. */
    method AddRemaining(remain: Section) returns (ok: bool)
      requires Open() && InSpace(remain) && remain.mr.DeviceMem? && Unclaimed(View(), remain)
      requires remain.offset % PAGE_SIZE == 0
      modifies this
      ensures ok ==> Open() && Registered(old(View()), View(), remain)
      ensures |old(sections)| + 3 <= PAGE_SIZE ==> ok
      ensures |sections| <= |old(sections)| + 3
      ensures !ok ==> |sections| == PAGE_SIZE
    {
      WholePages(remain);
      if remain.size >= PAGE_SIZE {
        ok := AddWholePages(remain);
      } else {
        ok := RegisterSubpage(remain);
      }
    }

    /** "register whole pages" and, if bytes are left over, "register last subpage". */
    method AddWholePages(remain: Section) returns (ok: bool)
      requires Open() && InSpace(remain) && remain.mr.DeviceMem? && Unclaimed(View(), remain)
      requires remain.offset % PAGE_SIZE == 0 && remain.size >= PAGE_SIZE
      modifies this
      ensures ok ==> Open() && Registered(old(View()), View(), remain)
      ensures |old(sections)| + 3 <= PAGE_SIZE ==> ok
      ensures |sections| <= |old(sections)| + 3
      ensures !ok ==> |sections| == PAGE_SIZE
    {
      hide Registered, Unclaimed, Building;
      var whole := remain.size - remain.size % PAGE_SIZE;
      WholePages(remain);
      NoneRegistered(View(), remain);
      StillUnclaimed(old(View()), View(), remain, 0);
      ok := RegisterMultipage(Head(remain, whole));
      if !ok || whole == remain.size {
        return;
      }
      StillUnclaimed(old(View()), View(), remain, whole);
      ghost var mid := View();
      ok := RegisterSubpage(Tail(remain, whole));
      if ok {
        Advance(old(View()), mid, View(), remain, whole, remain.size - whole);
      }
    }

    /** Holds while lookups are served. */
    ghost predicate Serving()
      reads this
    {
      && TableOk(View(), tags, leaves)
      && (mruSection.Some? ==> mruSection.value in leaves)
    }

    /** address_space_dispatch_compact */
    method DispatchCompact()
      requires Open()
      modifies this`physMap, this`nodes
      ensures Serving() && Tight(nodes, physMap, LEVELS)
      ensures forall addr: nat | addr < TWO64 :: Find(View(), addr) == Find(old(View()), addr)
      ensures SameAssigned(old(View()), View())
    {
      hide Tight, Compacted;
      NilTight(nodes, physMap, LEVELS);
      if physMap.skip != 0 {
        PlainIsLeaves(nodes, tags, leaves, 0, LEVELS);
        physMap := Compact(physMap, LEVELS, 0, leaves);
        forall addr: nat | addr < TWO64
          ensures TableOk(View(), tags, leaves) && Find(View(), addr) == Find(old(View()), addr)
        {
          CompactionKeepsFind(old(View()), View(), tags, leaves, addr);
        }
        CompactionKeepsFind(old(View()), View(), tags, leaves, 0);
      }
    }

    /** address_space_lookup_region: the most recently used section short-cuts the
        walk, and every sequence of lookups gives what the walk would give. */
    method LookupRegion(addr: nat, resolveSubpage: bool) returns (n: nat)
      requires Serving() && addr < TWO64
      modifies this`mruSection
      ensures Serving()
      ensures n == if resolveSubpage then ResolveSubpage(View(), Find(View(), addr), addr) else Find(View(), addr)
      ensures n < |sections| && mruSection == Some(Find(View(), addr))
    {
      FindLeaf(View(), tags, leaves, addr);
      assert mruSection.Some? && mruSection.value != UNASSIGNED ==> LeafOk(View(), mruSection.value);
      if mruSection.None? || mruSection.value == UNASSIGNED || !SectionCovers(sections[mruSection.value], addr) {
        n := PageFind(addr);
        mruSection := Some(n);
      } else {
        n := mruSection.value;
        CoversIsContains(sections[n], addr);
      }
      assert n != UNASSIGNED ==> LeafOk(View(), n);
      if resolveSubpage && sections[n].mr.SubpageMem? {
        n := subpages[sections[n].mr.id][addr % PAGE_SIZE];
      }
    }

    /** address_space_translate_internal: the section, the offset in its region and, for
        RAM, the length of the access clipped to the section. */
    method Translate(addr: nat, len: nat, isRam: MemoryRegion -> bool) returns (section: Section, xlat: int, plen: nat)
      requires Serving() && addr < TWO64
      modifies this`mruSection
      ensures Serving() && Contains(section, addr)
      ensures match Assigned(View(), addr)
              case None => section == UNASSIGNED_SECTION && xlat == addr
              case Some((mr, displacement)) => section.mr == mr && xlat == addr + displacement
      ensures plen == if isRam(section.mr) then Min(len, section.offset + section.size - addr) else len
    {
      var n := LookupRegion(addr, true);
      section := sections[n];
      ResolvedContains(View(), tags, leaves, addr);
      xlat := addr - section.offset + section.regionOffset;
      plen := len;
      if isRam(section.mr) {
        plen := Min(section.size - (addr - section.offset), len);
      }
    }
  }

  /** The loop of generate_memory_topology over the ranges of a flat view. */
  method AddFlatView(d: AddressSpaceDispatch, flat: seq<Section>) returns (ok: bool)
    requires FlatView(flat) && d.Open() && |d.sections| == 1 && Matches(d.View(), [])
    modifies d
    ensures ok ==> d.Open() && Matches(d.View(), flat)
    ensures 1 + 5 * |flat| <= 4096 ==> ok
    ensures !ok ==> |d.sections| == PAGE_SIZE
  {
    hide Matches, Registered, Unclaimed, Building;
    ok := true;
    var i := 0;
    while i < |flat|
      invariant i <= |flat| && ok
      invariant d.Open() && Matches(d.View(), flat[..i])
      invariant |d.sections| <= 1 + 5 * i
    {
      NextUnclaimed(d.View(), flat, i);
      ghost var t := d.View();
      ok := d.AddToDispatch(flat[i]);
      if !ok {
        return;
      }
      NextMatches(t, d.View(), flat, i);
      i := i + 1;
    }
    assert flat[..i] == flat;
  }

  /** generate_memory_topology's dispatch of a flat view: every address is answered
      as the flat view says, unless the section table overflows. */
  method BuildDispatch(flat: seq<Section>) returns (ok: bool, d: AddressSpaceDispatch)
    requires FlatView(flat)
    ensures fresh(d)
    ensures ok ==> d.Serving() && Matches(d.View(), flat) && Tight(d.nodes, d.physMap, LEVELS)
    ensures 1 + 5 * |flat| <= 4096 ==> ok
    ensures !ok ==> |d.sections| == PAGE_SIZE
  {
    d := new AddressSpaceDispatch();
    ok := AddFlatView(d, flat);
    if ok {
      ghost var t := d.View();
      d.DispatchCompact();
      SameMatches(t, d.View(), flat);
    }
  }

  /** An answer to an access: the region, the offset in it and the length to transfer. */
  datatype Answer = Answer(mr: MemoryRegion, xlat: int, len: nat)

  datatype Access = Access(addr: nat, len: nat)

  /** What a flat view says about an access: within the one range that contains the
      address, the offset from its start, added to where it begins in its region. */
  ghost predicate Answers(flat: seq<Section>, isRam: MemoryRegion -> bool, access: Access, r: Answer)
  {
    && (forall i {:trigger flat[i]}
          | 0 <= i < |flat| && flat[i].offset <= access.addr < flat[i].offset + flat[i].size ::
          && r.mr == flat[i].mr && r.xlat == access.addr - flat[i].offset + flat[i].regionOffset
          && (!isRam(r.mr) ==> r.len == access.len) && r.len <= access.len && (access.len > 0 ==> r.len > 0))
    && ((forall i {:trigger flat[i]} | 0 <= i < |flat| ::
           !(flat[i].offset <= access.addr < flat[i].offset + flat[i].size)) ==>
          r.mr == UNASSIGNED_SECTION.mr && r.xlat == access.addr)
  }

  /** A dispatch built for a flat view answers any sequence of accesses as the flat view
      does, whatever was accessed before. */
  method ServeAccesses(flat: seq<Section>, isRam: MemoryRegion -> bool, accesses: seq<Access>)
    returns (ok: bool, answers: seq<Answer>)
    requires FlatView(flat) && forall i | 0 <= i < |accesses| :: accesses[i].addr < TWO64
    ensures 1 + 5 * |flat| <= 4096 ==> ok
    ensures ok ==> |answers| == |accesses| && forall i {:trigger answers[i]} | 0 <= i < |accesses| ::
      Answers(flat, isRam, accesses[i], answers[i])
  {
    var d;
    ok, d := BuildDispatch(flat);
    answers := [];
    if !ok {
      return;
    }
    hide Tight;
    ghost var table := d.View();
    for k := 0 to |accesses|
      invariant fresh(d) && d.Serving() && d.View() == table && Matches(table, flat)
      invariant |answers| == k && forall i {:trigger answers[i]} | 0 <= i < k ::
        Answers(flat, isRam, accesses[i], answers[i])
    {
      var section, xlat, plen := d.Translate(accesses[k].addr, accesses[k].len, isRam);
      var r := Answer(section.mr, xlat, plen);
      AnswersIs(table, flat, isRam, accesses[k], r);
      answers := answers + [r];
    }
  }

  /** The region and the offset the table assigns are those of the flat view. */
  lemma AnswersIs(t: Table, flat: seq<Section>, isRam: MemoryRegion -> bool, access: Access, r: Answer)
    requires Matches(t, flat) && access.addr < TWO64
    requires match Assigned(t, access.addr)
             case None => r.mr == UNASSIGNED_SECTION.mr && r.xlat == access.addr
             case Some((mr, displacement)) => r.mr == mr && r.xlat == access.addr + displacement
    requires r.len <= access.len && (!isRam(r.mr) ==> r.len == access.len) && (access.len > 0 ==> r.len > 0)
    ensures Answers(flat, isRam, access, r)
  {
    assert FlatTarget(flat, access.addr, Assigned(t, access.addr));
    forall i | 0 <= i < |flat| ensures
      Contains(flat[i], access.addr) <==> flat[i].offset <= access.addr < flat[i].offset + flat[i].size
    {
    }
  }
}
