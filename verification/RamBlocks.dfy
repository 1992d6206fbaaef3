/** Guest RAM blocks and the address space of their dirty bitmaps: choosing an
    offset, keeping the list sorted, and finding the block of an address. */
module RamBlocks {
  import opened Helpers

  const TWO64: int := 0x1_0000_0000_0000_0000
  const RAM_ADDR_MAX: int := 0xffff_ffff_ffff_ffff

  /** Blocks start on a whole word of the bitmap: 64 pages of 4096 bytes. */
  const ALIGN: int := 0x4_0000

  type RamAddr = a: int | 0 <= a < 0x1_0000_0000_0000_0000

  datatype Block = Block(id: nat, offset: RamAddr, maxLength: RamAddr)

  // ---- The invariant ---------------------------------------------------------

  predicate Aligned(a: int)
  {
    a % ALIGN == 0
  }

  predicate BlockOk(b: Block)
  {
    b.maxLength > 0 && Aligned(b.offset) && b.offset + b.maxLength <= RAM_ADDR_MAX
  }

  predicate Disjoint(a: Block, b: Block)
  {
    a.offset + a.maxLength <= b.offset || b.offset + b.maxLength <= a.offset
  }

  ghost predicate BlocksOk(blocks: seq<Block>)
  {
    && (forall i {:trigger blocks[i]} | 0 <= i < |blocks| :: BlockOk(blocks[i]))
    && (forall i, j {:trigger blocks[i], blocks[j]} | 0 <= i < j < |blocks| ::
          Disjoint(blocks[i], blocks[j]) && blocks[i].maxLength >= blocks[j].maxLength)
  }

  // ---- Gaps ------------------------------------------------------------------

  /** Rounding up in 64 bits: past the last multiple it wraps around to 0. */
  function RoundUp(n: RamAddr): (r: RamAddr)
  {
    (n + ALIGN - 1) % TWO64 / ALIGN * ALIGN
  }

  /** Where the gap after a block starts: the first aligned address at or after its end,
      or 0 if there is none. */
  function Candidate(b: Block): (r: RamAddr)
    requires BlockOk(b)
    ensures r % 0x4_0000 == 0
    ensures if b.offset + b.maxLength + 0x3_ffff < TWO64
            then b.offset + b.maxLength <= r < b.offset + b.maxLength + 0x4_0000 else r == 0
  {
    RoundUpIs(b.offset + b.maxLength);
    RoundUp(b.offset + b.maxLength)
  }

  lemma RoundUpIs(n: RamAddr)
    ensures Aligned(RoundUp(n)) && RoundUp(n) <= TWO64 - ALIGN
    ensures if n + ALIGN - 1 < TWO64 then n <= RoundUp(n) < n + ALIGN else RoundUp(n) == 0
  {
  }

  /** The first start of a block at or above `c`, or the end of the space. */
  function Next(blocks: seq<Block>, c: RamAddr): (r: RamAddr)
    ensures c <= RAM_ADDR_MAX ==> c <= r <= RAM_ADDR_MAX
    ensures forall i {:trigger blocks[i]} | 0 <= i < |blocks| && blocks[i].offset >= c :: r <= blocks[i].offset
    ensures r == RAM_ADDR_MAX || exists i :: 0 <= i < |blocks| && blocks[i].offset == r >= c
  {
    if blocks == [] then RAM_ADDR_MAX
    else
      var n := |blocks| - 1;
      var r := Next(blocks[..n], c);
      assert blocks == blocks[..n] + [blocks[n]];
      if blocks[n].offset >= c && blocks[n].offset < r then blocks[n].offset else r
  }

  function Gap(blocks: seq<Block>, b: Block): (r: int)
    requires BlockOk(b)
    ensures r >= 0
  {
    Next(blocks, Candidate(b)) - Candidate(b)
  }

  /** A block that starts below the candidate of another one ends below it, too. */
  lemma EndsBelow(x: Block, b: Block)
    requires BlockOk(x) && BlockOk(b) && (x == b || Disjoint(x, b)) && x.offset < Candidate(b)
    ensures x.offset + x.maxLength <= Candidate(b)
  {
  }

  /** No block reaches into the gap that follows a block, wrapped around or not. */
  lemma GapFree(blocks: seq<Block>, b: Block, i: nat)
    requires BlocksOk(blocks) && b in blocks && i < |blocks|
    ensures BlockOk(b)
    ensures blocks[i].offset + blocks[i].maxLength <= Candidate(b) || blocks[i].offset >= Next(blocks, Candidate(b))
  {
    hide RoundUp, Aligned, Next;
    var k :| 0 <= k < |blocks| && blocks[k] == b;
    assert i < k ==> Disjoint(blocks[i], b);
    assert k < i ==> Disjoint(b, blocks[i]);
    if blocks[i].offset < Candidate(b) {
      EndsBelow(blocks[i], b);
    }
  }

  /** The new block does not touch any other. */
  ghost predicate FreeAt(blocks: seq<Block>, offset: RamAddr, size: RamAddr)
  {
    && Aligned(offset) && offset + size <= RAM_ADDR_MAX
    && forall i {:trigger blocks[i]} | 0 <= i < |blocks| ::
         blocks[i].offset + blocks[i].maxLength <= offset || offset + size <= blocks[i].offset
  }

  lemma GapIsFree(blocks: seq<Block>, b: Block, size: RamAddr)
    requires BlocksOk(blocks) && b in blocks && BlockOk(b) && Gap(blocks, b) >= size
    ensures FreeAt(blocks, Candidate(b), size)
  {
    hide RoundUp, Next, Disjoint;
    RoundUpIs(b.offset + b.maxLength);
    forall i | 0 <= i < |blocks|
      ensures blocks[i].offset + blocks[i].maxLength <= Candidate(b) || Candidate(b) + size <= blocks[i].offset
    {
      GapFree(blocks, b, i);
    }
  }

  /** Some block is followed by a gap that is large enough. */
  ghost predicate SomeFits(blocks: seq<Block>, size: RamAddr)
  {
    exists i :: 0 <= i < |blocks| && BlockOk(blocks[i]) && Gap(blocks, blocks[i]) >= size
  }

  /** `offset` starts the smallest sufficient gap among those after the first `n` blocks. */
  ghost predicate BestFit(blocks: seq<Block>, n: nat, size: RamAddr, offset: RamAddr, gap: int)
  {
    && (exists i ::
      0 <= i < n <= |blocks| && BlockOk(blocks[i]) && offset == Candidate(blocks[i]) && gap == Gap(blocks, blocks[i]))
    && gap >= size
    && forall i {:trigger blocks[i]} | 0 <= i < n && n <= |blocks| && BlockOk(blocks[i]) ::
         Gap(blocks, blocks[i]) >= size ==> gap <= Gap(blocks, blocks[i])
  }

  method NextBlock(blocks: seq<Block>, candidate: RamAddr) returns (next: RamAddr)
    ensures next == Next(blocks, candidate)
  {
    next := RAM_ADDR_MAX;
    for i := 0 to |blocks|
      invariant next == Next(blocks[..i], candidate)
    {
      assert blocks[..i + 1][..i] == blocks[..i];
      if blocks[i].offset >= candidate {
        next := if next < blocks[i].offset then next else blocks[i].offset;
      }
    }
    assert blocks[..|blocks|] == blocks;
  }

  /** Best fit over the gaps that follow a block.  It fails exactly when none of
      them is large enough. */
  method FindRamOffset(blocks: seq<Block>, size: RamAddr) returns (r: Option<RamAddr>)
    requires BlocksOk(blocks) && size != 0
    ensures blocks == [] ==> r == Some(0)
    ensures blocks != [] ==> (r.Some? <==> SomeFits(blocks, size))
    ensures blocks != [] && r.Some? ==> exists gap :: BestFit(blocks, |blocks|, size, r.value, gap)
    ensures r.Some? ==> FreeAt(blocks, r.value, size)
  {
    hide RoundUp, Next, Gap;
    if blocks == [] {
      return Some(0);
    }
    var offset: RamAddr, mingap: RamAddr := RAM_ADDR_MAX, RAM_ADDR_MAX;
    for i := 0 to |blocks|
      invariant Searched(blocks, i, size, offset, mingap)
    {
      var candidate := Candidate(blocks[i]);
      var next := NextBlock(blocks, candidate);
      GapIs(blocks, blocks[i]);
      SearchStep(blocks, i, size, offset, mingap);
      if next - candidate >= size && next - candidate < mingap {
        offset, mingap := candidate, next - candidate;
      }
    }
    SearchDone(blocks, size, offset, mingap);
    r := if offset == RAM_ADDR_MAX then None else Some(offset);
  }

  /** What the search knows after the first `n` blocks. */
  ghost predicate Searched(blocks: seq<Block>, n: nat, size: RamAddr, offset: RamAddr, mingap: RamAddr)
    requires n <= |blocks| && BlocksOk(blocks)
  {
    if offset == RAM_ADDR_MAX
    then mingap == RAM_ADDR_MAX && forall j {:trigger blocks[j]} | 0 <= j < n :: Gap(blocks, blocks[j]) < size
    else BestFit(blocks, n, size, offset, mingap)
  }

  lemma GapIs(blocks: seq<Block>, b: Block)
    requires BlocksOk(blocks) && b in blocks
    ensures BlockOk(b) && Gap(blocks, b) == Next(blocks, Candidate(b)) - Candidate(b)
    ensures 0 <= Gap(blocks, b) < RAM_ADDR_MAX && Candidate(b) != RAM_ADDR_MAX
  {
  }

  lemma SearchStep(blocks: seq<Block>, i: nat, size: RamAddr, offset: RamAddr, mingap: RamAddr)
    requires BlocksOk(blocks) && i < |blocks| && Searched(blocks, i, size, offset, mingap)
    ensures if Gap(blocks, blocks[i]) >= size && Gap(blocks, blocks[i]) < mingap
            then Candidate(blocks[i]) != RAM_ADDR_MAX && Gap(blocks, blocks[i]) < RAM_ADDR_MAX
                 && BestFit(blocks, i + 1, size, Candidate(blocks[i]), Gap(blocks, blocks[i]))
            else Searched(blocks, i + 1, size, offset, mingap)
  {
    hide Gap, Candidate, Aligned, Disjoint;
    var b := blocks[i];
    GapIs(blocks, b);
    if Gap(blocks, b) >= size && Gap(blocks, b) < mingap {
      forall j | 0 <= j < i + 1 && Gap(blocks, blocks[j]) >= size ensures Gap(blocks, b) <= Gap(blocks, blocks[j]) {
        assert blocks[j] == blocks[j];
      }
    }
  }

  lemma SearchDone(blocks: seq<Block>, size: RamAddr, offset: RamAddr, mingap: RamAddr)
    requires BlocksOk(blocks) && Searched(blocks, |blocks|, size, offset, mingap)
    ensures offset != RAM_ADDR_MAX <==> SomeFits(blocks, size)
    ensures offset != RAM_ADDR_MAX ==> BestFit(blocks, |blocks|, size, offset, mingap) && FreeAt(blocks, offset, size)
  {
    hide RoundUp, Aligned, Next, Gap;
    if offset != RAM_ADDR_MAX {
      var i :| 0 <= i < |blocks| && BlockOk(blocks[i]) && offset == Candidate(blocks[i]) &&
        mingap == Gap(blocks, blocks[i]);
      GapIsFree(blocks, blocks[i], size);
    }
  }

  /** Space below the lowest block is free but not found: the search only looks
      after blocks. */
  lemma SpaceBelowMissed(id: nat)
    ensures var b := Block(id, 0x4_0000, 0xffff_ffff_fff8_0000);
      BlocksOk([b]) && !SomeFits([b], 0x4_0000) && FreeAt([b], 0, 0x4_0000)
  {
  }

  // ---- The list --------------------------------------------------------------

  /** The address lies in the block; the subtraction is in 64 bits. */
  predicate Hits(b: Block, addr: RamAddr)
  {
    (addr - b.offset) % TWO64 < b.maxLength
  }

  lemma HitsIs(b: Block, addr: RamAddr)
    requires BlockOk(b)
    ensures Hits(b, addr) <==> b.offset <= addr < b.offset + b.maxLength
  {
  }

  ghost predicate Holds(blocks: seq<Block>, addr: RamAddr)
  {
    exists i :: 0 <= i < |blocks| && Hits(blocks[i], addr)
  }

  lemma OnlyHit(blocks: seq<Block>, b: Block, addr: RamAddr, i: nat)
    requires BlocksOk(blocks) && b in blocks && Hits(b, addr) && i < |blocks| && Hits(blocks[i], addr)
    ensures blocks[i] == b
  {
  }

  /** The place of a new block: after all blocks at least as long. */
  lemma InsertOk(blocks: seq<Block>, at: nat, b: Block)
    requires BlocksOk(blocks) && at <= |blocks| && BlockOk(b) && FreeAt(blocks, b.offset, b.maxLength)
    requires forall i {:trigger blocks[i]} | 0 <= i < at :: blocks[i].maxLength >= b.maxLength
    requires at < |blocks| ==> blocks[at].maxLength < b.maxLength
    ensures BlocksOk(blocks[..at] + [b] + blocks[at..])
    ensures InsertedAt(blocks, blocks[..at] + [b] + blocks[at..], b, at)
  {
  }

  /** `b` was inserted behind all blocks at least as long and before all shorter ones. */
  ghost predicate InsertedAt(s0: seq<Block>, s1: seq<Block>, b: Block, at: nat)
  {
    && at <= |s0| && s1 == s0[..at] + [b] + s0[at..]
    && (forall i {:trigger s0[i]} | 0 <= i < at :: s0[i].maxLength >= b.maxLength)
    && (forall i {:trigger s0[i]} | at <= i < |s0| :: s0[i].maxLength < b.maxLength)
  }

  lemma RemoveOk(blocks: seq<Block>, at: nat)
    requires BlocksOk(blocks) && at < |blocks|
    ensures BlocksOk(blocks[..at] + blocks[at + 1..])
  {
  }

  class RamList {
    var blocks: seq<Block>
    var mru: Option<Block>

    ghost predicate Valid()
      reads this
    {
      BlocksOk(blocks) && (mru.Some? ==> mru.value in blocks)
    }

    constructor ()
      ensures Valid() && blocks == []
    {
      blocks, mru := [], None;
    }

    /** A new block gets a place of its own, or there is none after any block; the
        list stays sorted from the biggest block to the smallest. */
    method RamBlockAdd(id: nat, maxLength: RamAddr) returns (r: Option<Block>)
      requires Valid() && maxLength != 0
      modifies this
      ensures Valid()
      ensures r.None? <==> old(blocks) != [] && !SomeFits(old(blocks), maxLength)
      ensures if r.None? then blocks == old(blocks) && mru == old(mru) else mru.None?
      ensures old(blocks) == [] && r.Some? ==> r.value.offset == 0
      ensures old(blocks) != [] && r.Some? ==>
        exists gap :: BestFit(old(blocks), |old(blocks)|, maxLength, r.value.offset, gap)
      ensures r.Some? ==>
        r.value.id == id && r.value.maxLength == maxLength && FreeAt(old(blocks), r.value.offset, maxLength)
      ensures r.Some? ==> exists at :: InsertedAt(old(blocks), blocks, r.value, at)
    {
      hide RoundUp, Aligned, Next, Gap, BestFit, SomeFits;
      var offset := FindRamOffset(blocks, maxLength);
      if offset.None? {
        return None;
      }
      var b := Block(id, offset.value, maxLength);
      var at := 0;
      while at < |blocks| && blocks[at].maxLength >= maxLength
        invariant at <= |blocks|
        invariant forall i {:trigger blocks[i]} | 0 <= i < at :: blocks[i].maxLength >= maxLength
      {
        at := at + 1;
      }
      InsertOk(blocks, at, b);
      blocks := blocks[..at] + [b] + blocks[at..];
      mru := None;
      r := Some(b);
    }

    method RamFree(at: nat)
      requires Valid() && at < |blocks|
      modifies this
      ensures Valid() && blocks == old(blocks)[..at] + old(blocks)[at + 1..] && mru.None?
    {
      RemoveOk(blocks, at);
      blocks := blocks[..at] + blocks[at + 1..];
      mru := None;
    }

    /** With or without the cached block, the one block that holds the address. */
    method GetRamBlock(addr: RamAddr) returns (r: Option<Block>)
      requires Valid()
      modifies `mru
      ensures Valid() && mru == if r.Some? then r else old(mru)
      ensures r.Some? <==> Holds(blocks, addr)
      ensures r.Some? ==> r.value in blocks && r.value.offset <= addr < r.value.offset + r.value.maxLength
      ensures r.Some? ==> forall i {:trigger blocks[i]} | 0 <= i < |blocks| && Hits(blocks[i], addr) ::
        blocks[i] == r.value
    {
      hide Hits;
      if mru.Some? && Hits(mru.value, addr) {
        r := mru;
        FoundBlock(blocks, r.value, addr);
        return;
      }
      for i := 0 to |blocks|
        invariant forall j {:trigger blocks[j]} | 0 <= j < i :: !Hits(blocks[j], addr)
      {
        if Hits(blocks[i], addr) {
          mru := Some(blocks[i]);
          r := mru;
          FoundBlock(blocks, r.value, addr);
          return;
        }
      }
      r := None;
    }
  }

  lemma FoundBlock(blocks: seq<Block>, b: Block, addr: RamAddr)
    requires BlocksOk(blocks) && b in blocks && Hits(b, addr)
    ensures Holds(blocks, addr) && b.offset <= addr < b.offset + b.maxLength
    ensures forall i {:trigger blocks[i]} | 0 <= i < |blocks| && Hits(blocks[i], addr) :: blocks[i] == b
  {
    hide Hits;
    var k :| 0 <= k < |blocks| && blocks[k] == b;
    HitsIs(b, addr);
    forall i | 0 <= i < |blocks| && Hits(blocks[i], addr) ensures blocks[i] == b {
      OnlyHit(blocks, b, addr, i);
    }
  }

  /** After the one block of the list, the rest of the space is a gap that fits. */
  lemma SecondBlock(low: Block, size: RamAddr)
    requires low.offset == 0 && low.maxLength == 0x4_0000 && size == 0xffff_ffff_fff8_0000
    ensures BlocksOk([low]) && SomeFits([low], size)
    ensures forall offset: RamAddr, gap :: BestFit([low], 1, size, offset, gap) ==> offset == 0x4_0000
  {
    assert Candidate(low) == 0x4_0000;
    assert Gap([low], [low][0]) >= size;
  }

  method TwoBlocks() returns (list: RamList)
    ensures fresh(list) && list.Valid()
    ensures list.blocks == [Block(1, 0x4_0000, 0xffff_ffff_fff8_0000), Block(0, 0, 0x4_0000)]
  {
    hide BestFit, SomeFits, FreeAt, BlocksOk;
    list := new RamList();
    var low := list.RamBlockAdd(0, 0x4_0000);
    assert list.blocks == [low.value];
    SecondBlock(low.value, 0xffff_ffff_fff8_0000);
    var high := list.RamBlockAdd(1, 0xffff_ffff_fff8_0000);
  }

  /** The same, reached from the empty list: the first of two blocks is freed, and
      a block of its size is refused although its place is free. */
  method FreedSpaceMissed() returns (list: RamList, r: Option<Block>)
    ensures fresh(list) && list.Valid() && r.None? && FreeAt(list.blocks, 0, 0x4_0000)
  {
    hide BestFit, SomeFits, FreeAt, BlocksOk;
    list := TwoBlocks();
    list.RamFree(1);
    SpaceBelowMissed(1);
    assert list.blocks == [Block(1, 0x4_0000, 0xffff_ffff_fff8_0000)];
    r := list.RamBlockAdd(2, 0x4_0000);
  }
}
