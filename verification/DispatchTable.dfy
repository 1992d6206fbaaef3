/** What a dispatch table means: which memory region, at which displacement,
    answers an address.  Lookups follow phys_page_find and
    address_space_lookup_region; the invariant is what registration keeps. */
module DispatchTable {
  import opened Helpers
  import opened PhysTree
  import opened PhysCompact

  const TWO64: nat := 0x1_0000_0000_0000_0000
  const PAGES: nat := TWO64 / PAGE_SIZE

  datatype MemoryRegion = UnassignedMem | SubpageMem(id: nat) | DeviceMem(id: nat)

  /** MemoryRegionSection; `size` is the source's 128-bit size. */
  datatype Section = Section(mr: MemoryRegion, offset: nat, size: nat, regionOffset: int)

  const UNASSIGNED_SECTION := Section(UnassignedMem, 0, TWO64, 0)

  /** The fields of AddressSpaceDispatch that lookups read. */
  datatype Table = Table(root: Entry, nodes: seq<Node>, sections: seq<Section>, subpages: seq<seq<nat>>)

  /** range_covers_byte, in 64-bit arithmetic. */
  predicate RangeCoversByte(offset: nat, len: nat, byte: nat)
  {
    offset <= byte <= (offset + len - 1) % TWO64
  }

  /** section_covers_addr */
  predicate SectionCovers(s: Section, addr: nat)
  {
    s.size >= TWO64 || RangeCoversByte(s.offset, s.size % TWO64, addr)
  }

  predicate Contains(s: Section, addr: nat)
  {
    s.offset <= addr < s.offset + s.size
  }

  /** Sections are not empty and end within the address space. */
  predicate InSpace(s: Section)
  {
    0 < s.size && s.offset + s.size <= TWO64
  }

  lemma CoversIsContains(s: Section, addr: nat)
    requires InSpace(s) && addr < TWO64
    ensures SectionCovers(s, addr) <==> Contains(s, addr)
  {
  }

  predicate PageAligned(s: Section)
  {
    s.offset % PAGE_SIZE == 0 && s.size % PAGE_SIZE == 0
  }

  function PageOf(addr: nat): (r: nat)
  {
    addr / PAGE_SIZE
  }

  predicate ContainsPage(s: Section, page: nat)
  {
    PageOf(s.offset) <= page < PageOf(s.offset + s.size)
  }

  lemma AlignedContains(s: Section, addr: nat)
    requires PageAligned(s)
    ensures Contains(s, addr) <==> ContainsPage(s, PageOf(addr))
  {
  }

  // ---- Lookups -------------------------------------------------------------

  /** phys_page_find, as a section number. */
  function Find(t: Table, addr: nat): (n: nat)
  {
    var n := Walk(t.nodes, t.root, LEVELS, PageOf(addr));
    if n < |t.sections| && SectionCovers(t.sections[n], addr) then n else UNASSIGNED
  }

  /** The subpage step of address_space_lookup_region. */
  function ResolveSubpage(t: Table, n: nat, addr: nat): (r: nat)
  {
    if n < |t.sections| && t.sections[n].mr.SubpageMem? && t.sections[n].mr.id < |t.subpages|
       && |t.subpages[t.sections[n].mr.id]| == PAGE_SIZE
    then t.subpages[t.sections[n].mr.id][addr % PAGE_SIZE]
    else n
  }

  /** Where a section sends an address: the region and the displacement to its offset there. */
  function Target(s: Section): (r: (MemoryRegion, int))
  {
    (s.mr, s.regionOffset - s.offset)
  }

  /** What the table says about `addr`, or None for the unassigned section. */
  function Assigned(t: Table, addr: nat): (r: Option<(MemoryRegion, int)>)
  {
    var n := ResolveSubpage(t, Find(t, addr), addr);
    if n == UNASSIGNED || n >= |t.sections| then None else Some(Target(t.sections[n]))
  }

  // ---- Invariant -----------------------------------------------------------

  /** Byte `k` of the page from `base` names a section that contains it, or none. */
  ghost predicate SubpageOk(t: Table, sub: seq<nat>, base: nat)
  {
    && |sub| == PAGE_SIZE
    && forall k {:trigger sub[k]} | 0 <= k < PAGE_SIZE ::
         sub[k] == UNASSIGNED || ByteOk(t, sub[k], base + k)
  }

  ghost predicate ByteOk(t: Table, n: nat, addr: nat)
  {
    n < |t.sections| && t.sections[n].mr.DeviceMem? && Contains(t.sections[n], addr)
  }

  /** A section that occurs as a leaf covers whole pages, and the tree knows all of them. */
  ghost predicate LeafOk(t: Table, n: nat)
  {
    && n < |t.sections| && InSpace(t.sections[n]) && PageAligned(t.sections[n])
    && (t.sections[n].mr.SubpageMem? ==>
          && t.sections[n].size == PAGE_SIZE && t.sections[n].mr.id < |t.subpages|
          && SubpageOk(t, t.subpages[t.sections[n].mr.id], t.sections[n].offset))
    && (t.sections[n].mr.SubpageMem? || t.sections[n].mr.DeviceMem?)
    && forall page {:trigger ContainsPage(t.sections[n], page)} | ContainsPage(t.sections[n], page) ::
         Walk(t.nodes, t.root, LEVELS, page) == n
  }

  ghost predicate TableOk(t: Table, tags: seq<Tag>, leaves: set<nat>)
  {
    && Shape(t.nodes, tags) && Leaves(t.nodes, leaves)
    && EntryOk(tags, t.root, LEVELS, 0) && LeafIn(t.root, leaves)
    && |t.sections| > 0 && t.sections[UNASSIGNED] == UNASSIGNED_SECTION
    && (forall n {:trigger LeafOk(t, n)} | n in leaves && n != UNASSIGNED :: LeafOk(t, n))
  }

  /** A lookup finds the leaf section that contains the address, if there is one. */
  lemma FindLeaf(t: Table, tags: seq<Tag>, leaves: set<nat>, addr: nat)
    requires TableOk(t, tags, leaves) && addr < TWO64
    ensures Find(t, addr) in leaves && Find(t, addr) < |t.sections|
    ensures Find(t, addr) != UNASSIGNED ==> Contains(t.sections[Find(t, addr)], addr)
    ensures forall n | n in leaves && n != UNASSIGNED && n < |t.sections| && Contains(t.sections[n], addr) ::
              Find(t, addr) == n
  {
    var page := PageOf(addr);
    WalkLeaf(t.nodes, tags, t.root, LEVELS, 0, page, leaves);
    var w := Walk(t.nodes, t.root, LEVELS, page);
    if w != UNASSIGNED {
      assert LeafOk(t, w);
      CoversIsContains(t.sections[w], addr);
    }
    forall n | n in leaves && n != UNASSIGNED && n < |t.sections| && Contains(t.sections[n], addr)
      ensures Find(t, addr) == n
    {
      assert LeafOk(t, n);
      AlignedContains(t.sections[n], addr);
      CoversIsContains(t.sections[n], addr);
    }
  }

  /** Compaction changes no lookup, whatever leaf it sends unassigned pages to. */
  lemma CompactionKeepsFind(t: Table, t': Table, tags: seq<Tag>, leaves: set<nat>, addr: nat)
    requires TableOk(t, tags, leaves) && t' == t.(root := t'.root, nodes := t'.nodes)
    requires Shape(t'.nodes, tags) && Leaves(t'.nodes, leaves)
    requires EntryOk(tags, t'.root, LEVELS, 0) && LeafIn(t'.root, leaves)
    requires Compacted(t.nodes, t.root, t'.nodes, t'.root, LEVELS, 0, leaves)
    requires addr < TWO64
    ensures TableOk(t', tags, leaves)
    ensures Find(t', addr) == Find(t, addr)
  {
    SpanTop();
    forall n | n in leaves && n != UNASSIGNED ensures LeafOk(t', n) {
      assert LeafOk(t, n);
    }
    FindLeaf(t, tags, leaves, addr);
    FindLeaf(t', tags, leaves, addr);
  }

  lemma SpanTop()
    ensures Span(LEVELS) == 0x40_0000_0000_0000 && PAGES <= Span(LEVELS) && LEVELS == 6
  {
  }

  // ---- Registration --------------------------------------------------------

  ghost predicate PageOk(t: Table, page: nat)
  {
    var w := Walk(t.nodes, t.root, LEVELS, page);
    w == UNASSIGNED || (w < |t.sections| && ContainsPage(t.sections[w], page))
  }

  ghost predicate SameSubpage(t: Table, m: nat, n: nat)
  {
    && m < |t.sections| && n < |t.sections|
    && t.sections[m].mr.SubpageMem? && t.sections[m].mr == t.sections[n].mr
  }

  /** The table while it is being built: not compacted, every leaf page in its section. */
  ghost predicate Building(t: Table, tags: seq<Tag>, leaves: set<nat>)
  {
    && TableOk(t, tags, leaves)
    && Plain(t.nodes, leaves) && t.root.skip == 1
    && (forall page | 0 <= page < PAGES :: PageOk(t, page))
    && (forall m, n {:trigger SameSubpage(t, m, n)} | m in leaves && n in leaves && SameSubpage(t, m, n) :: m == n)
  }

  ghost predicate HasByte(sub: seq<nat>)
  {
    exists k :: 0 <= k < |sub| && sub[k] != UNASSIGNED
  }

  /** Every page split into bytes, except subpage `id`, has a byte that is assigned. */
  ghost predicate NoEmptySubpageBut(t: Table, leaves: set<nat>, id: nat)
  {
    forall n {:trigger n in leaves} | n in leaves && n < |t.sections| && t.sections[n].mr.SubpageMem?
      && t.sections[n].mr.id < |t.subpages| && t.sections[n].mr.id != id ::
      HasByte(t.subpages[t.sections[n].mr.id])
  }

  ghost predicate NoEmptySubpage(t: Table, leaves: set<nat>)
  {
    NoEmptySubpageBut(t, leaves, |t.subpages|)
  }

  /** A page with a section in the tree has an assigned byte. */
  lemma AssignedByte(t: Table, tags: seq<Tag>, leaves: set<nat>, page: nat) returns (addr: nat)
    requires Building(t, tags, leaves) && NoEmptySubpage(t, leaves) && page < PAGES
    requires Walk(t.nodes, t.root, LEVELS, page) != UNASSIGNED
    ensures PageOf(addr) == page && Assigned(t, addr) != None
  {
    var w := Walk(t.nodes, t.root, LEVELS, page);
    WalkLeaf(t.nodes, tags, t.root, LEVELS, 0, page, leaves);
    assert LeafOk(t, w) && PageOk(t, page);
    var k: nat := if t.sections[w].mr.SubpageMem?
                  then SomeByte(t.subpages[t.sections[w].mr.id]) else 0;
    addr := page * PAGE_SIZE + k;
    assert PageOf(addr) == page && addr % PAGE_SIZE == k;
    AlignedContains(t.sections[w], addr);
    FindLeaf(t, tags, leaves, addr);
  }

  /** A page all of whose bytes are unassigned is unassigned in the tree. */
  lemma FreePage(t: Table, tags: seq<Tag>, leaves: set<nat>, page: nat)
    requires Building(t, tags, leaves) && NoEmptySubpage(t, leaves) && page < PAGES
    requires forall addr: nat | PageOf(addr) == page :: Assigned(t, addr) == None
    ensures Walk(t.nodes, t.root, LEVELS, page) == UNASSIGNED
  {
    if Walk(t.nodes, t.root, LEVELS, page) != UNASSIGNED {
      var addr := AssignedByte(t, tags, leaves, page);
    }
  }

  ghost function SomeByte(sub: seq<nat>): (k: nat)
    requires HasByte(sub)
    ensures k < |sub| && sub[k] != UNASSIGNED
  {
    var k: nat :| k < |sub| && sub[k] != UNASSIGNED;
    k
  }

  lemma PageStart(base: nat, addr: nat)
    requires base % PAGE_SIZE == 0 && base <= addr < base + PAGE_SIZE
    ensures PageOf(base) == PageOf(addr)
  {
  }

  /** A page with an unassigned byte is free in the tree or split into bytes. */
  lemma FreeByte(t: Table, tags: seq<Tag>, leaves: set<nat>, base: nat, addr: nat)
    requires Building(t, tags, leaves) && addr < TWO64 && Assigned(t, addr) == None
    requires base % PAGE_SIZE == 0 && base <= addr < base + PAGE_SIZE
    ensures var w := Walk(t.nodes, t.root, LEVELS, PageOf(base));
            && w in leaves && w < |t.sections| && Find(t, base) == w
            && (w != UNASSIGNED ==> t.sections[w].mr.SubpageMem? && LeafOk(t, w) && Contains(t.sections[w], addr))
  {
    PageStart(base, addr);
    var w := Walk(t.nodes, t.root, LEVELS, PageOf(base));
    WalkLeaf(t.nodes, tags, t.root, LEVELS, 0, PageOf(base), leaves);
    FindLeaf(t, tags, leaves, addr);
    FindLeaf(t, tags, leaves, base);
    if w != UNASSIGNED {
      assert LeafOk(t, w) && PageOk(t, PageOf(base));
      AlignedContains(t.sections[w], addr);
      AlignedContains(t.sections[w], base);
    }
  }

  /** The sub_section array of a fresh subpage. */
  function ZeroSubpage(): (r: seq<nat>)
    ensures |r| == PAGE_SIZE && forall k | 0 <= k < PAGE_SIZE :: r[k] == UNASSIGNED
  {
    seq(PAGE_SIZE, _ => UNASSIGNED)
  }

  /** `t'` is `t` after phys_section_add of `s` and phys_page_set of its pages. */
  ghost predicate LeafAdded(t: Table, t': Table, tags': seq<Tag>, leaves: set<nat>, s: Section)
  {
    var n := |t.sections|;
    && t'.sections == t.sections + [s]
    && t'.subpages == (if s.mr.SubpageMem? then t.subpages + [ZeroSubpage()] else t.subpages)
    && (s.mr.DeviceMem? || (s.mr == SubpageMem(|t.subpages|) && s.size == PAGE_SIZE))
    && InSpace(s) && PageAligned(s)
    && Shape(t'.nodes, tags') && Plain(t'.nodes, leaves + {n})
    && EntryOk(tags', t'.root, LEVELS, 0) && t'.root.skip == 1
    && Filled(t.nodes, t.root, t'.nodes, t'.root, LEVELS, 0, PageOf(s.offset), PageOf(s.offset + s.size), n)
    && (forall page | 0 <= page < PAGES && ContainsPage(s, page) ::
          Walk(t.nodes, t.root, LEVELS, page) == UNASSIGNED)
  }

  lemma AddLeafOk(t: Table, t': Table, tags: seq<Tag>, tags': seq<Tag>, leaves: set<nat>, s: Section, n: nat)
    requires Building(t, tags, leaves) && LeafAdded(t, t', tags', leaves, s)
    requires n in leaves + {|t.sections|} && n != UNASSIGNED
    ensures LeafOk(t', n)
  {
    SpanTop();
    if n != |t.sections| { assert LeafOk(t, n); }
    forall page | ContainsPage(t'.sections[n], page)
      ensures Walk(t'.nodes, t'.root, LEVELS, page) == n
    {
    }
  }

  lemma AddLeaf(t: Table, t': Table, tags: seq<Tag>, tags': seq<Tag>, leaves: set<nat>, s: Section)
    requires Building(t, tags, leaves) && LeafAdded(t, t', tags', leaves, s)
    ensures Building(t', tags', leaves + {|t.sections|})
  {
    SpanTop();
    var leaves' := leaves + {|t.sections|};
    forall n | n in leaves' && n != UNASSIGNED ensures LeafOk(t', n) {
      AddLeafOk(t, t', tags, tags', leaves, s, n);
    }
    PlainIsLeaves(t'.nodes, tags', leaves', 0, LEVELS);
    forall page | 0 <= page < PAGES ensures PageOk(t', page) { assert PageOk(t, page); }
    forall m, n | m in leaves' && n in leaves' && SameSubpage(t', m, n) ensures m == n {
      assert m in leaves && m != UNASSIGNED ==> LeafOk(t, m);
      assert n in leaves && n != UNASSIGNED ==> LeafOk(t, n);
      assert m in leaves && n in leaves && m != UNASSIGNED && n != UNASSIGNED ==> SameSubpage(t, m, n);
    }
  }

  /** The lookups change only where the new section is. */
  lemma AddLeafFind(t: Table, t': Table, tags: seq<Tag>, tags': seq<Tag>, leaves: set<nat>, s: Section, addr: nat)
    requires Building(t, tags, leaves) && LeafAdded(t, t', tags', leaves, s) && addr < TWO64
    ensures Find(t', addr) == if Contains(s, addr) then |t.sections| else Find(t, addr)
    ensures Assigned(t', addr) ==
            if !Contains(s, addr) then Assigned(t, addr)
            else if s.mr.SubpageMem? then None else Some(Target(s))
  {
    AddLeaf(t, t', tags, tags', leaves, s);
    FindLeaf(t, tags, leaves, addr);
    FindLeaf(t', tags', leaves + {|t.sections|}, addr);
    assert t'.sections[|t.sections|] == s;
    var n := Find(t, addr);
    assert n != UNASSIGNED ==> LeafOk(t, n);
    assert n != UNASSIGNED ==> Contains(t'.sections[n], addr);
  }

  /** `t'` is `t` after phys_section_add of `s` and subpage_register of its bytes
      in the subpage that leaf `p` stands for. */
  ghost predicate BytesAdded(t: Table, t': Table, leaves: set<nat>, p: nat, s: Section)
  {
    && p in leaves && p != UNASSIGNED && p < |t.sections| && t.sections[p].mr.SubpageMem?
    && InSpace(s) && s.mr.DeviceMem?
    && Contains(t.sections[p], s.offset) && Contains(t.sections[p], s.offset + s.size - 1)
    && t.sections[p].mr.id < |t.subpages| && |t.subpages[t.sections[p].mr.id]| == PAGE_SIZE
    && |t'.subpages| == |t.subpages|
    && t' == t.(sections := t.sections + [s],
                subpages := t.subpages[t.sections[p].mr.id := t'.subpages[t.sections[p].mr.id]])
    && |t'.subpages[t.sections[p].mr.id]| == PAGE_SIZE
    && forall k | 0 <= k < PAGE_SIZE ::
         t'.subpages[t.sections[p].mr.id][k] ==
         if s.offset % PAGE_SIZE <= k < s.offset % PAGE_SIZE + s.size
         then |t.sections| else t.subpages[t.sections[p].mr.id][k]
  }

  /** The bytes that now name the new section are its own, all others name what they did. */
  lemma AddedBytes(t: Table, t': Table, tags: seq<Tag>, leaves: set<nat>, p: nat, s: Section, n: nat)
    requires Building(t, tags, leaves) && BytesAdded(t, t', leaves, p, s)
    requires n in leaves && n != UNASSIGNED && LeafOk(t, n) && t.sections[n].mr.SubpageMem?
    ensures SubpageOk(t', t'.subpages[t.sections[n].mr.id], t.sections[n].offset)
  {
    var base, sub, sub' := t.sections[n].offset, t.subpages[t.sections[n].mr.id], t'.subpages[t.sections[n].mr.id];
    assert LeafOk(t, p);
    forall k | 0 <= k < PAGE_SIZE ensures sub'[k] == UNASSIGNED || ByteOk(t', sub'[k], base + k) {
      if sub'[k] == sub[k] {
        assert sub[k] == UNASSIGNED || ByteOk(t, sub[k], base + k);
      } else {
        assert SameSubpage(t, n, p);
        ByteIndex(base, s.offset);
      }
    }
  }

  lemma AddBytes(t: Table, t': Table, tags: seq<Tag>, leaves: set<nat>, p: nat, s: Section)
    requires Building(t, tags, leaves) && BytesAdded(t, t', leaves, p, s)
    ensures Building(t', tags, leaves)
    ensures HasByte(t'.subpages[t.sections[p].mr.id])
  {
    assert LeafOk(t, p);
    assert t'.subpages[t.sections[p].mr.id][s.offset % PAGE_SIZE] != UNASSIGNED;
    forall n | n in leaves && n != UNASSIGNED ensures LeafOk(t', n) {
      assert LeafOk(t, n);
      if t.sections[n].mr.SubpageMem? { AddedBytes(t, t', tags, leaves, p, s, n); }
    }
    forall page | 0 <= page < PAGES ensures PageOk(t', page) { assert PageOk(t, page); }
    forall m, n | m in leaves && n in leaves && SameSubpage(t', m, n) ensures m == n {
      assert m != UNASSIGNED ==> LeafOk(t, m);
      assert n != UNASSIGNED ==> LeafOk(t, n);
      assert SameSubpage(t, m, n);
    }
  }

  lemma ByteIndex(base: nat, addr: nat)
    requires base % PAGE_SIZE == 0 && base <= addr < base + PAGE_SIZE
    ensures addr % PAGE_SIZE == addr - base
  {
  }

  /** The section an address resolves to contains it. */
  lemma ResolvedContains(t: Table, tags: seq<Tag>, leaves: set<nat>, addr: nat)
    requires TableOk(t, tags, leaves) && addr < TWO64
    ensures var n := ResolveSubpage(t, Find(t, addr), addr);
      n < |t.sections| && Contains(t.sections[n], addr)
  {
    FindLeaf(t, tags, leaves, addr);
    var n := Find(t, addr);
    if n != UNASSIGNED {
      assert LeafOk(t, n);
      if t.sections[n].mr.SubpageMem? {
        ByteIndex(t.sections[n].offset, addr);
        var sub := t.subpages[t.sections[n].mr.id];
        assert sub[addr % PAGE_SIZE] == UNASSIGNED || ByteOk(t, sub[addr % PAGE_SIZE], addr);
      }
    }
  }

  lemma BytesKeepFind(t: Table, t': Table, tags: seq<Tag>, leaves: set<nat>, p: nat, s: Section, addr: nat)
    requires Building(t, tags, leaves) && BytesAdded(t, t', leaves, p, s)
    requires addr < TWO64
    ensures Find(t', addr) == Find(t, addr) && Find(t, addr) in leaves
    ensures var n := Find(t, addr); n != UNASSIGNED ==> LeafOk(t, n) && Contains(t.sections[n], addr)
    ensures Contains(t.sections[p], addr) ==> Find(t, addr) == p
  {
    AddBytes(t, t', tags, leaves, p, s);
    FindLeaf(t, tags, leaves, addr);
    FindLeaf(t', tags, leaves, addr);
    var n := Find(t, addr);
    assert n != UNASSIGNED ==> LeafOk(t, n) && Contains(t'.sections[n], addr);
    var n' := Find(t', addr);
    assert n' != UNASSIGNED ==> LeafOk(t, n') && Contains(t.sections[n'], addr);
  }

  lemma AddBytesFind(t: Table, t': Table, tags: seq<Tag>, leaves: set<nat>, p: nat, s: Section, addr: nat)
    requires Building(t, tags, leaves) && BytesAdded(t, t', leaves, p, s)
    requires addr < TWO64
    ensures Assigned(t', addr) == if Contains(s, addr) then Some(Target(s)) else Assigned(t, addr)
  {
    BytesKeepFind(t, t', tags, leaves, p, s, addr);
    assert LeafOk(t, p);
    ByteIndex(t.sections[p].offset, s.offset);
    var n := Find(t, addr);
    if n == p {
      ByteIndex(t.sections[p].offset, addr);
      var sub := t.subpages[t.sections[p].mr.id];
      assert sub[addr % PAGE_SIZE] < |t.sections|;
    } else {
      assert SameSubpage(t, n, p) ==> n == p;
      assert ResolveSubpage(t', n, addr) == ResolveSubpage(t, n, addr) < |t.sections|;
    }
  }

  /** From `t` to `t'`, exactly the bytes of `s` changed, and they now go where `s` says. */
  ghost predicate Registered(t: Table, t': Table, s: Section)
  {
    forall addr: nat {:trigger Assigned(t', addr)} | addr < TWO64 ::
      Assigned(t', addr) == if Contains(s, addr) then Some(Target(s)) else Assigned(t, addr)
  }

  ghost predicate SameAssigned(t: Table, t': Table)
  {
    forall addr: nat {:trigger Assigned(t', addr)} | addr < TWO64 :: Assigned(t', addr) == Assigned(t, addr)
  }

  ghost predicate Unclaimed(t: Table, s: Section)
  {
    forall addr: nat {:trigger Assigned(t, addr)} | Contains(s, addr) :: Assigned(t, addr) == None
  }

  lemma UnclaimedPages(t: Table, tags: seq<Tag>, leaves: set<nat>, s: Section)
    requires Building(t, tags, leaves) && NoEmptySubpage(t, leaves)
    requires InSpace(s) && PageAligned(s) && Unclaimed(t, s)
    ensures Free(t.nodes, t.root, LEVELS, 0, PageOf(s.offset), PageOf(s.offset + s.size))
    ensures forall page | 0 <= page < PAGES && ContainsPage(s, page) ::
              Walk(t.nodes, t.root, LEVELS, page) == UNASSIGNED
  {
    forall page: nat | ContainsPage(s, page)
      ensures Walk(t.nodes, t.root, LEVELS, page) == UNASSIGNED
    {
      forall addr: nat | PageOf(addr) == page ensures Assigned(t, addr) == None {
        AlignedContains(s, addr);
      }
      FreePage(t, tags, leaves, page);
    }
  }

  lemma MultipageDone(t: Table, t': Table, tags: seq<Tag>, tags': seq<Tag>, leaves: set<nat>, s: Section)
    requires Building(t, tags, leaves) && NoEmptySubpage(t, leaves)
    requires LeafAdded(t, t', tags', leaves, s) && s.mr.DeviceMem?
    ensures Building(t', tags', leaves + {|t.sections|}) && NoEmptySubpage(t', leaves + {|t.sections|})
    ensures Registered(t, t', s)
  {
    AddLeaf(t, t', tags, tags', leaves, s);
    forall addr: nat | addr < TWO64
      ensures Assigned(t', addr) == if Contains(s, addr) then Some(Target(s)) else Assigned(t, addr)
    {
      AddLeafFind(t, t', tags, tags', leaves, s, addr);
    }
    EmptySubpages(t, t', leaves, s);
  }

  /** Every split page but the fresh one has an assigned byte. */
  lemma EmptySubpages(t: Table, t': Table, leaves: set<nat>, s: Section)
    requires NoEmptySubpage(t, leaves)
    requires forall n | n in leaves && n != UNASSIGNED :: LeafOk(t, n)
    requires |t.sections| > 0 && t.sections[UNASSIGNED] == UNASSIGNED_SECTION
    requires t'.sections == t.sections + [s]
    requires t'.subpages == (if s.mr.SubpageMem? then t.subpages + [ZeroSubpage()] else t.subpages)
    requires s.mr.DeviceMem? || s.mr == SubpageMem(|t.subpages|)
    ensures NoEmptySubpageBut(t', leaves + {|t.sections|}, |t.subpages|)
  {
  }

  /** Splitting a free page into bytes assigns nothing yet. */
  lemma SplitDone(t: Table, t': Table, tags: seq<Tag>, tags': seq<Tag>, leaves: set<nat>, s: Section)
    requires Building(t, tags, leaves) && NoEmptySubpage(t, leaves)
    requires LeafAdded(t, t', tags', leaves, s) && s.mr.SubpageMem?
    ensures Building(t', tags', leaves + {|t.sections|})
    ensures SameAssigned(t, t')
    ensures NoEmptySubpageBut(t', leaves + {|t.sections|}, |t.subpages|)
  {
    AddLeaf(t, t', tags, tags', leaves, s);
    EmptySubpages(t, t', leaves, s);
    forall addr: nat | addr < TWO64 ensures Assigned(t', addr) == Assigned(t, addr) {
      AddLeafFind(t, t', tags, tags', leaves, s, addr);
      AlignedContains(s, addr);
      SpanTop();
      if Contains(s, addr) {
        assert Walk(t.nodes, t.root, LEVELS, PageOf(addr)) == UNASSIGNED;
      }
    }
  }

  /** What splitting the free page at `base` is, in terms of the tree. */
  lemma SplitIsLeafAdded(t: Table, t': Table, tags': seq<Tag>, leaves: set<nat>, base: nat)
    requires base % PAGE_SIZE == 0 && base < TWO64
    requires Walk(t.nodes, t.root, LEVELS, PageOf(base)) == UNASSIGNED
    requires t'.sections == t.sections + [Section(SubpageMem(|t.subpages|), base, PAGE_SIZE, 0)]
    requires t'.subpages == t.subpages + [ZeroSubpage()]
    requires Shape(t'.nodes, tags') && Plain(t'.nodes, leaves + {|t.sections|})
    requires EntryOk(tags', t'.root, LEVELS, 0) && t'.root.skip == 1
    requires Filled(t.nodes, t.root, t'.nodes, t'.root, LEVELS, 0, PageOf(base), PageOf(base) + 1, |t.sections|)
    ensures LeafAdded(t, t', tags', leaves, Section(SubpageMem(|t.subpages|), base, PAGE_SIZE, 0))
  {
  }

  lemma BytesDone(t: Table, t': Table, tags: seq<Tag>, leaves: set<nat>, p: nat, s: Section)
    requires Building(t, tags, leaves) && BytesAdded(t, t', leaves, p, s)
    requires NoEmptySubpageBut(t, leaves, t.sections[p].mr.id)
    ensures Building(t', tags, leaves) && NoEmptySubpage(t', leaves) && Registered(t, t', s)
  {
    AddBytes(t, t', tags, leaves, p, s);
    forall addr: nat | addr < TWO64
      ensures Assigned(t', addr) == if Contains(s, addr) then Some(Target(s)) else Assigned(t, addr)
    {
      AddBytesFind(t, t', tags, leaves, p, s, addr);
    }
    forall n | n in leaves && n < |t'.sections| && t'.sections[n].mr.SubpageMem?
      && t'.sections[n].mr.id < |t'.subpages|
      ensures HasByte(t'.subpages[t'.sections[n].mr.id])
    {
      assert n != UNASSIGNED && LeafOk(t, n);
    }
  }

  // ---- A section in pieces -------------------------------------------------

  function Head(s: Section, n: nat): (r: Section)
  {
    s.(size := n)
  }

  function Tail(s: Section, n: nat): (r: Section)
    requires n <= s.size
  {
    Section(s.mr, s.offset + n, s.size - n, s.regionOffset + n)
  }

  /** After the first `k` bytes of `s`, the next `n` are registered too. */
  lemma Advance(t0: Table, t1: Table, t2: Table, s: Section, k: nat, n: nat)
    requires k + n <= s.size
    requires Registered(t0, t1, Head(s, k)) && Registered(t1, t2, Head(Tail(s, k), n))
    ensures Registered(t0, t2, Head(s, k + n))
  {
  }

  lemma StillUnclaimed(t0: Table, t1: Table, s: Section, k: nat)
    requires InSpace(s) && Unclaimed(t0, s) && k <= s.size && Registered(t0, t1, Head(s, k))
    ensures Unclaimed(t1, Tail(s, k))
    ensures forall n: nat | n <= s.size - k :: Unclaimed(t1, Head(Tail(s, k), n))
  {
  }

  lemma NoneRegistered(t: Table, s: Section)
    ensures Registered(t, t, Head(s, 0))
  {
  }

  /** The whole pages and the rest of a section that starts on a page. */
  lemma WholePages(s: Section)
    requires InSpace(s) && s.offset % PAGE_SIZE == 0
    ensures var whole := s.size - s.size % PAGE_SIZE;
            && (whole > 0 ==> PageAligned(Head(s, whole)) && InSpace(Head(s, whole)))
            && (whole < s.size ==>
                  && InSpace(Tail(s, whole))
                  && PageOf(s.offset + whole) == PageOf(s.offset + s.size - 1))
  {
  }

  // ---- The flat view -------------------------------------------------------

  ghost predicate Disjoint(s: Section, u: Section)
  {
    forall addr: nat :: !(Contains(s, addr) && Contains(u, addr))
  }

  /** A flat view: ranges of devices inside the address space, no two of which overlap. */
  ghost predicate FlatView(flat: seq<Section>)
  {
    && (forall i | 0 <= i < |flat| :: InSpace(flat[i]) && flat[i].mr.DeviceMem?)
    && (forall i, j | 0 <= i < j < |flat| :: Disjoint(flat[i], flat[j]))
  }

  /** `r` is what the flat view says about `addr`. */
  ghost predicate FlatTarget(flat: seq<Section>, addr: nat, r: Option<(MemoryRegion, int)>)
  {
    && (forall i | 0 <= i < |flat| && Contains(flat[i], addr) ::
          r == Some((flat[i].mr, flat[i].regionOffset - flat[i].offset)))
    && ((forall i | 0 <= i < |flat| :: !Contains(flat[i], addr)) ==> r == None)
  }

  ghost predicate Matches(t: Table, flat: seq<Section>)
  {
    forall addr: nat {:trigger Assigned(t, addr)} | addr < TWO64 :: FlatTarget(flat, addr, Assigned(t, addr))
  }

  lemma NextUnclaimed(t: Table, flat: seq<Section>, i: nat)
    requires FlatView(flat) && i < |flat| && Matches(t, flat[..i])
    ensures Unclaimed(t, flat[i])
  {
  }

  lemma NextMatches(t: Table, t': Table, flat: seq<Section>, i: nat)
    requires FlatView(flat) && i < |flat| && Matches(t, flat[..i]) && Registered(t, t', flat[i])
    ensures Matches(t', flat[..i + 1])
  {
    assert flat[..i + 1] == flat[..i] + [flat[i]];
    forall addr: nat | addr < TWO64 ensures FlatTarget(flat[..i + 1], addr, Assigned(t', addr)) {
      assert FlatTarget(flat[..i], addr, Assigned(t, addr));
      if Contains(flat[i], addr) {
        forall j | 0 <= j < i ensures !Contains(flat[..i][j], addr) {
          assert Disjoint(flat[j], flat[i]);
        }
        assert Contains(flat[..i + 1][i], addr);
      } else {
        assert forall j | 0 <= j < i :: flat[..i + 1][j] == flat[..i][j];
      }
    }
  }

  lemma SameMatches(t: Table, t': Table, flat: seq<Section>)
    requires Matches(t, flat) && SameAssigned(t, t')
    ensures Matches(t', flat)
  {
  }
}
