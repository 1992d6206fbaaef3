/** Direct memory access between a block device and scattered guest memory: a
    request is split wherever memory cannot be mapped, and resumed from there. */
module DmaBlk {
  import opened Helpers

  /** `len` bytes of guest memory from `base`. */
  datatype Range = Range(base: int, len: nat)

  function BytesOf(r: Range): (s: seq<int>)
    ensures |s| == r.len
  {
    seq(r.len, i => r.base + i)
  }

  /** The addresses of all bytes of a scatter list, in order. */
  function Bytes(ranges: seq<Range>): seq<int>
  {
    if ranges == [] then [] else Bytes(ranges[..|ranges| - 1]) + BytesOf(ranges[|ranges| - 1])
  }

  lemma BytesSnoc(ranges: seq<Range>, r: Range)
    ensures Bytes(ranges + [r]) == Bytes(ranges) + BytesOf(r)
  {
  }

  lemma {:induction false} BytesPrefix(ranges: seq<Range>, i: nat)
    requires i <= |ranges|
    ensures Bytes(ranges[..i]) <= Bytes(ranges)
    decreases |ranges| - i
  {
    if i == |ranges| {
      assert ranges[..i] == ranges;
    } else {
      BytesPrefix(ranges, i + 1);
      assert ranges[..i + 1][..i] == ranges[..i];
    }
  }

  /** The bytes before position `byte` of entry `index`. */
  function Before(sg: seq<Range>, index: nat, byte: nat): seq<int>
    requires At(sg, index, byte)
  {
    Bytes(sg[..index]) + (if index < |sg| then BytesOf(sg[index])[..byte] else [])
  }

  predicate At(sg: seq<Range>, index: nat, byte: nat)
  {
    index <= |sg| && (if index < |sg| then byte <= sg[index].len else byte == 0)
  }

  /** Taking `m` more bytes of the current entry. */
  lemma BeforeNext(sg: seq<Range>, index: nat, byte: nat, m: nat)
    requires index < |sg| && byte + m <= sg[index].len
    ensures Before(sg, index, byte + m) == Before(sg, index, byte) + BytesOf(Range(sg[index].base + byte, m))
  {
  }

  lemma BeforeEntry(sg: seq<Range>, index: nat)
    requires index < |sg|
    ensures Before(sg, index, sg[index].len) == Before(sg, index + 1, 0)
  {
    assert sg[..index + 1][..index] == sg[..index];
    assert BytesOf(sg[index])[..sg[index].len] == BytesOf(sg[index]);
    if index + 1 < |sg| { assert BytesOf(sg[index + 1])[..0] == []; }
  }

  lemma TakeMore(sg: seq<Range>, index: nat, byte: nat, m: nat, first: seq<int>, iov: seq<Range>)
    requires index < |sg| && byte + m <= sg[index].len && Before(sg, index, byte) == first + Bytes(iov)
    ensures Before(sg, index, byte + m) == first + Bytes(iov + [Range(sg[index].base + byte, m)])
  {
    var r := Range(sg[index].base + byte, m);
    BytesSnoc(iov, r);
    BeforeNext(sg, index, byte, m);
    assert first + Bytes(iov) + BytesOf(r) == first + (Bytes(iov) + BytesOf(r));
  }

  /** The cursor and the vector after a round, by how much each attempt maps. */
  function MapAll(sg: seq<Range>, index: nat, byte: nat, iov: seq<Range>, maps: seq<nat>): (r: (nat, nat, seq<Range>))
    requires At(sg, index, byte)
    ensures At(sg, r.0, r.1)
    decreases |maps|
  {
    if index == |sg| || maps == [] || Min(maps[0], sg[index].len - byte) == 0 then (index, byte, iov)
    else
      var m := Min(maps[0], sg[index].len - byte);
      var more := iov + [Range(sg[index].base + byte, m)];
      if byte + m == sg[index].len then MapAll(sg, index + 1, 0, more, maps[1..])
      else MapAll(sg, index, byte + m, more, maps[1..])
  }

  /** The piece ends where an entry of the list does. */
  ghost predicate EndsEntry(sg: seq<Range>, piece: Range)
  {
    exists i :: 0 <= i < |sg| && piece.base + piece.len == sg[i].base + sg[i].len
  }

  /** All that the attempt got, up to the end of the entry. */
  ghost predicate Piece(sg: seq<Range>, piece: Range, got: nat)
  {
    0 < piece.len <= got && (piece.len == got || EndsEntry(sg, piece))
  }

  /** The vector after its first `n` pieces is what the attempts got. */
  ghost predicate Greedy(sg: seq<Range>, n: nat, all: seq<Range>, maps: seq<nat>)
  {
    && n <= |all| <= n + |maps|
    && forall j {:trigger all[j]} | n <= j < |all| :: Piece(sg, all[j], maps[j - n])
  }

  /** A round goes on until the list ends, the attempts do, or one of them gets nothing,
      and takes all that each attempt gets, up to the end of the entry. */
  lemma {:induction false} MapAllGreedy(sg: seq<Range>, index: nat, byte: nat, iov: seq<Range>, maps: seq<nat>)
    requires At(sg, index, byte)
    ensures var r := MapAll(sg, index, byte, iov, maps);
      && Greedy(sg, |iov|, r.2, maps) && r.2[..|iov|] == iov
      && (r.0 == |sg| || |r.2| == |iov| + |maps| || maps[|r.2| - |iov|] == 0 || r.1 == sg[r.0].len)
    decreases |maps|
  {
    if !(index == |sg| || maps == [] || Min(maps[0], sg[index].len - byte) == 0) {
      var m := Min(maps[0], sg[index].len - byte);
      var piece := Range(sg[index].base + byte, m);
      var more := iov + [piece];
      assert m < maps[0] ==> piece.base + piece.len == sg[index].base + sg[index].len;
      assert Piece(sg, piece, maps[0]);
      var done := byte + m == sg[index].len;
      var i, b: nat := if done then index + 1 else index, if done then 0 else byte + m;
      MapAllGreedy(sg, i, b, more, maps[1..]);
      GreedyNext(sg, iov, piece, MapAll(sg, i, b, more, maps[1..]).2, maps);
    }
  }

  lemma GreedyNext(sg: seq<Range>, iov: seq<Range>, piece: Range, all: seq<Range>, maps: seq<nat>)
    requires maps != [] && Piece(sg, piece, maps[0])
    requires Greedy(sg, |iov| + 1, all, maps[1..]) && all[..|iov| + 1] == iov + [piece]
    ensures Greedy(sg, |iov|, all, maps) && all[..|iov|] == iov
  {
    assert all[|iov|] == all[..|iov| + 1][|iov|] == piece;
    assert all[..|iov|] == all[..|iov| + 1][..|iov|];
  }

  lemma SizeSnoc(iov: seq<Range>, r: Range)
    ensures Size(iov + [r]) == Size(iov) + r.len
  {
    assert (iov + [r])[..|iov|] == iov;
  }

  /** Maps are not empty. */
  lemma {:induction false} MapAllSome(sg: seq<Range>, index: nat, byte: nat, iov: seq<Range>, maps: seq<nat>)
    requires At(sg, index, byte) && (iov == [] || Size(iov) > 0)
    ensures var r := MapAll(sg, index, byte, iov, maps); r.2 == [] || Size(r.2) > 0
    decreases |maps|
  {
    hide Size, Bytes, BytesOf;
    if !(index == |sg| || maps == [] || Min(maps[0], sg[index].len - byte) == 0) {
      var m := Min(maps[0], sg[index].len - byte);
      var more := iov + [Range(sg[index].base + byte, m)];
      SizeSnoc(iov, Range(sg[index].base + byte, m));
      if byte + m == sg[index].len {
        MapAllSome(sg, index + 1, 0, more, maps[1..]);
      } else {
        MapAllSome(sg, index, byte + m, more, maps[1..]);
      }
    }
  }

  /** Whatever maps, the vector holds exactly the bytes the cursor passes. */
  lemma {:induction false} MapAllFrom(sg: seq<Range>, index: nat, byte: nat, iov: seq<Range>, maps: seq<nat>,
                                      first: seq<int>)
    requires At(sg, index, byte) && Before(sg, index, byte) == first + Bytes(iov)
    ensures var r := MapAll(sg, index, byte, iov, maps);
      Before(sg, r.0, r.1) == first + Bytes(r.2)
    decreases |maps|
  {
    hide Before, Bytes;
    if !(index == |sg| || maps == [] || Min(maps[0], sg[index].len - byte) == 0) {
      var m := Min(maps[0], sg[index].len - byte);
      var more := iov + [Range(sg[index].base + byte, m)];
      TakeMore(sg, index, byte, m, first, iov);
      if byte + m == sg[index].len {
        BeforeEntry(sg, index);
        MapAllFrom(sg, index + 1, 0, more, maps[1..], first);
      } else {
        MapAllFrom(sg, index, byte + m, more, maps[1..], first);
      }
    }
  }

  lemma MapAllBytes(sg: seq<Range>, index: nat, byte: nat, maps: seq<nat>)
    requires At(sg, index, byte)
    ensures var r := MapAll(sg, index, byte, [], maps);
      Before(sg, r.0, r.1) == Before(sg, index, byte) + Bytes(r.2)
  {
    assert Before(sg, index, byte) + Bytes([]) == Before(sg, index, byte);
    MapAllFrom(sg, index, byte, [], maps, Before(sg, index, byte));
  }

  /** The vector without its last `n` bytes. */
  function DiscardBack(iov: seq<Range>, n: nat): (r: seq<Range>)
    requires n <= |Bytes(iov)|
    ensures Bytes(r) == Bytes(iov)[..|Bytes(iov)| - n]
    ensures |r| <= |iov| && (|r| == |iov| <==> n == 0 || n < iov[|iov| - 1].len)
    decreases |iov|
  {
    if n == 0 then assert Bytes(iov)[..|Bytes(iov)|] == Bytes(iov); iov
    else
      var last := iov[|iov| - 1];
      var front := iov[..|iov| - 1];
      if n < last.len then
        BytesSnoc(front, Range(last.base, last.len - n));
        assert BytesOf(Range(last.base, last.len - n)) == BytesOf(last)[..last.len - n];
        front + [Range(last.base, last.len - n)]
      else
        assert Bytes(iov)[..|Bytes(iov)| - n] == Bytes(front)[..|Bytes(front)| - (n - last.len)];
        DiscardBack(front, n - last.len)
  }

  /** What a request of the device moves, byte by byte. */
  function Moves(offset: int, bytes: seq<int>): (s: seq<(int, int)>)
    ensures |s| == |bytes|
  {
    seq(|bytes|, i requires 0 <= i < |bytes| => (offset + i, bytes[i]))
  }

  /** Byte `i` goes to or from the `i`-th place after the offset. */
  lemma InOrderMeans(moved: seq<(int, int)>, offset: int, bytes: seq<int>)
    ensures moved == Moves(offset, bytes) <==>
      |moved| == |bytes| && forall i | 0 <= i < |moved| :: moved[i] == (offset + i, bytes[i])
  {
  }

  /** Requesting a prefix of the bytes at hand gives an ordered transfer exactly when
      it was ordered before and the prefix is all of them: a lost order is not regained. */
  lemma IssueOrder(start: int, before: seq<int>, moved: seq<(int, int)>, mapped: seq<int>, n: nat)
    requires n <= |mapped| && Behind(moved, start, before)
    ensures moved + Moves(start + |moved|, mapped[..n]) == Moves(start, before + mapped)
      <==> moved == Moves(start, before) && n == |mapped|
    ensures Behind(moved + Moves(start + |moved|, mapped[..n]), start, before + mapped)
  {
    var l, r := moved + Moves(start + |moved|, mapped[..n]), Moves(start, before + mapped);
    if l == r {
      assert |l| == |moved| + n && |r| == |before| + |mapped|;
      forall i | 0 <= i < |before| ensures moved[i] == Moves(start, before)[i] {
        assert l[i] == r[i];
      }
    }
    if moved == Moves(start, before) && n == |mapped| {
      assert mapped[..n] == mapped;
    }
  }

  /** How many of `size` mapped bytes a request really takes: all of them, except
      that a size that is not a multiple of the alignment but reaches it leaves
      only the remainder. */
  function Taken(size: nat, align: nat): (n: nat)
    requires align > 0
    ensures n <= size
    ensures n == size <==> Whole(size, align)
    ensures n != size ==> n == size % align
  {
    if size % align == 0 then size
    else
      Remainder(size, align);
      size % align
  }

  lemma Remainder(size: nat, align: nat)
    requires align > 0
    ensures 0 <= size % align <= size
    ensures size % align == size <==> size < align
    ensures size - size / align * align == size % align
  {
    assert size == align * (size / align) + size % align;
    if size / align == 0 {
    } else {
      assert align * (size / align) >= align by { MulAtLeast(align, size / align); }
    }
  }

  lemma MulAtLeast(a: nat, k: nat)
    requires k >= 1
    ensures a * k >= a
  {
    assert a * k == a + a * (k - 1);
    assert a * (k - 1) >= 0;
  }

  /** The round takes all it maps. */
  predicate Whole(size: nat, align: nat)
    requires align > 0
  {
    size % align == 0 || size < align
  }

  /** What is cut off is less than the last map. */
  predicate CutLast(iov: seq<Range>, align: nat)
    requires align > 0
  {
    iov != [] && Size(iov) - Size(iov) % align < iov[|iov| - 1].len
  }

  /** The vector as it is requested: it keeps all its maps unless a whole one is cut off. */
  function Trimmed(iov: seq<Range>, align: nat): (r: seq<Range>)
    requires align > 0
    ensures Bytes(r) == Bytes(iov)[..Taken(Size(iov), align)]
    ensures |r| <= |iov| && (|r| == |iov| <==> Whole(Size(iov), align) || CutLast(iov, align))
  {
    Remainder(Size(iov), align);
    if Size(iov) % align == 0 then assert Bytes(iov)[..Size(iov)] == Bytes(iov); iov
    else DiscardBack(iov, Size(iov) - Size(iov) % align)
  }

  // ---- A whole transfer --------------------------------------------------------

  /** One call of the handler: the result of the request that ended, if there was
      one, and how much each attempt to map memory gets. */
  datatype Round = Round(ret: int, maps: seq<nat>)

  /** Where the cursor ends up, whether the transfer is over, with an error or not,
      whether every round took all it mapped, and how many maps were cut off. */
  datatype End = End(index: nat, byte: nat, completed: bool, failed: bool, whole: bool, lost: nat)

  function Joined(whole: bool, lost: nat, e: End): End
  {
    e.(whole := whole && e.whole, lost := lost + e.lost)
  }

  function Play(sg: seq<Range>, align: nat, index: nat, byte: nat, outstanding: bool, rounds: seq<Round>): (r: End)
    requires align > 0 && At(sg, index, byte)
    ensures At(sg, r.index, r.byte) && (r.completed && !r.failed ==> r.index == |sg| && r.byte == 0)
    decreases |rounds|
  {
    if rounds == [] then End(index, byte, false, false, true, 0)
    else if index == |sg| || (outstanding && rounds[0].ret < 0)
    then End(index, byte, true, outstanding && rounds[0].ret < 0, true, 0)
    else
      var m := MapAll(sg, index, byte, [], rounds[0].maps);
      var rest := Play(sg, align, m.0, m.1, Size(m.2) > 0, rounds[1..]);
      Joined(Whole(Size(m.2), align), |m.2| - |Trimmed(m.2, align)|, rest)
  }

  lemma PlayNone(sg: seq<Range>, align: nat, index: nat, byte: nat, outstanding: bool, rounds: seq<Round>)
    requires align > 0 && At(sg, index, byte) && rounds == []
    ensures Play(sg, align, index, byte, outstanding, rounds) == End(index, byte, false, false, true, 0)
  {
  }

  /** The next round of the rest of a transfer. */
  lemma PlayNext(sg: seq<Range>, align: nat, index: nat, byte: nat, outstanding: bool, rounds: seq<Round>, i: nat)
    requires align > 0 && At(sg, index, byte) && i < |rounds|
    ensures Play(sg, align, index, byte, outstanding, rounds[i..]) ==
      if index == |sg| || (outstanding && rounds[i].ret < 0)
      then End(index, byte, true, outstanding && rounds[i].ret < 0, true, 0)
      else
        var m := MapAll(sg, index, byte, [], rounds[i].maps);
        Joined(Whole(Size(m.2), align), |m.2| - |Trimmed(m.2, align)|,
          Play(sg, align, m.0, m.1, Size(m.2) > 0, rounds[i + 1..]))
  {
    assert rounds[i..][0] == rounds[i] && rounds[i..][1..] == rounds[i + 1..];
  }

  /** What was requested falls short of what was passed over, or is exactly that. */
  ghost predicate Behind(moved: seq<(int, int)>, start: int, passed: seq<int>)
  {
    |moved| <= |passed| && (|moved| == |passed| ==> moved == Moves(start, passed))
  }

  // ---- Every transfer ends ---------------------------------------------------------

  /** The cursor stands in an entry that has bytes left. */
  ghost predicate Proper(sg: seq<Range>, index: nat, byte: nat)
  {
    index <= |sg| && (if index < |sg| then byte < sg[index].len else byte == 0)
  }

  ghost predicate NoneEmpty(sg: seq<Range>)
  {
    forall i {:trigger sg[i]} | 0 <= i < |sg| :: sg[i].len > 0
  }

  lemma {:induction false} MapAllProper(sg: seq<Range>, index: nat, byte: nat, iov: seq<Range>, maps: seq<nat>)
    requires NoneEmpty(sg) && Proper(sg, index, byte)
    ensures var r := MapAll(sg, index, byte, iov, maps); Proper(sg, r.0, r.1)
    decreases |maps|
  {
    if !(index == |sg| || maps == [] || Min(maps[0], sg[index].len - byte) == 0) {
      var m := Min(maps[0], sg[index].len - byte);
      var more := iov + [Range(sg[index].base + byte, m)];
      if byte + m == sg[index].len {
        MapAllProper(sg, index + 1, 0, more, maps[1..]);
      } else {
        MapAllProper(sg, index, byte + m, more, maps[1..]);
      }
    }
  }

  /** The first attempt of the round gets something, and the last request did not fail. */
  predicate Fruitful(round: Round)
  {
    round.ret >= 0 && round.maps != [] && round.maps[0] > 0
  }

  /** A fruitful round takes the cursor further. */
  lemma RoundMoves(sg: seq<Range>, index: nat, byte: nat, round: Round)
    requires NoneEmpty(sg) && Proper(sg, index, byte) && index < |sg| && Fruitful(round)
    ensures var m := MapAll(sg, index, byte, [], round.maps);
      && Proper(sg, m.0, m.1) && At(sg, index, byte) && At(sg, m.0, m.1)
      && |Before(sg, m.0, m.1)| > |Before(sg, index, byte)|
  {
    hide Before, Bytes;
    MapAllProper(sg, index, byte, [], round.maps);
    MapAllBytes(sg, index, byte, round.maps);
    MapAllGreedy(sg, index, byte, [], round.maps);
    MapAllSome(sg, index, byte, [], round.maps);
    FirstPiece(sg, index, byte, round.maps);
  }

  lemma FirstPiece(sg: seq<Range>, index: nat, byte: nat, maps: seq<nat>)
    requires Proper(sg, index, byte) && index < |sg| && maps != [] && maps[0] > 0
    ensures MapAll(sg, index, byte, [], maps).2 != []
  {
    var m := Min(maps[0], sg[index].len - byte);
    var more := [] + [Range(sg[index].base + byte, m)];
    if byte + m == sg[index].len {
      MapAllGreedy(sg, index + 1, 0, more, maps[1..]);
    } else {
      MapAllGreedy(sg, index, byte + m, more, maps[1..]);
    }
  }

  /** A transfer without empty entries ends, after as many fruitful rounds as the list
      has bytes and one more. */
  lemma {:induction false} PlayCompletes(sg: seq<Range>, align: nat, index: nat, byte: nat, outstanding: bool,
                                         rounds: seq<Round>)
    requires align > 0 && NoneEmpty(sg) && Proper(sg, index, byte) && At(sg, index, byte)
    requires forall i {:trigger rounds[i]} | 0 <= i < |rounds| :: Fruitful(rounds[i])
    requires |rounds| + |Before(sg, index, byte)| > |Bytes(sg)|
    ensures var end := Play(sg, align, index, byte, outstanding, rounds); end.completed && !end.failed
    decreases |rounds|
  {
    hide Before, Bytes, MapAll, Trimmed, Whole;
    BeforeBounded(sg, index, byte);
    if index < |sg| {
      var m := MapAll(sg, index, byte, [], rounds[0].maps);
      RoundMoves(sg, index, byte, rounds[0]);
      PlayCompletes(sg, align, m.0, m.1, Size(m.2) > 0, rounds[1..]);
    }
  }

  lemma BeforeBounded(sg: seq<Range>, index: nat, byte: nat)
    requires At(sg, index, byte)
    ensures |Before(sg, index, byte)| <= |Bytes(sg)|
  {
    BytesPrefix(sg, index);
    if index < |sg| {
      BytesPrefix(sg, index + 1);
      assert sg[..index + 1][..index] == sg[..index];
    }
  }

  /** The cursor is not past entry `i`. */
  ghost predicate Until(index: nat, byte: nat, i: nat)
  {
    index < i || (index == i && byte == 0)
  }

  /** No round gets past an empty entry. */
  lemma {:induction false} EmptyStops(sg: seq<Range>, index: nat, byte: nat, iov: seq<Range>, maps: seq<nat>, i: nat)
    requires At(sg, index, byte) && i < |sg| && sg[i].len == 0 && Until(index, byte, i)
    ensures var r := MapAll(sg, index, byte, iov, maps); Until(r.0, r.1, i)
    decreases |maps|
  {
    if !(index == |sg| || maps == [] || Min(maps[0], sg[index].len - byte) == 0) {
      var m := Min(maps[0], sg[index].len - byte);
      var more := iov + [Range(sg[index].base + byte, m)];
      if byte + m == sg[index].len {
        EmptyStops(sg, index + 1, 0, more, maps[1..], i);
      } else {
        EmptyStops(sg, index, byte + m, more, maps[1..], i);
      }
    }
  }

  lemma {:induction false} PlayStalls(sg: seq<Range>, align: nat, index: nat, byte: nat, outstanding: bool,
                                      rounds: seq<Round>, i: nat)
    requires align > 0 && At(sg, index, byte) && i < |sg| && sg[i].len == 0 && Until(index, byte, i)
    requires forall j {:trigger rounds[j]} | 0 <= j < |rounds| :: rounds[j].ret >= 0
    ensures !Play(sg, align, index, byte, outstanding, rounds).completed
    decreases |rounds|
  {
    hide MapAll, Trimmed, Whole;
    if rounds != [] {
      var m := MapAll(sg, index, byte, [], rounds[0].maps);
      EmptyStops(sg, index, byte, [], rounds[0].maps, i);
      PlayStalls(sg, align, m.0, m.1, Size(m.2) > 0, rounds[1..], i);
    }
  }

  /** With enough rounds that get something, a transfer completes if and only if its list
      has no empty entry: such an entry cannot be mapped, so nothing gets past it. */
  lemma TransferEnds(sg: seq<Range>, align: nat, rounds: seq<Round>)
    requires align > 0 && |rounds| > |Bytes(sg)|
    requires forall i {:trigger rounds[i]} | 0 <= i < |rounds| :: Fruitful(rounds[i])
    ensures Play(sg, align, 0, 0, false, rounds).completed <==> NoneEmpty(sg)
  {
    hide Play;
    if NoneEmpty(sg) {
      PlayCompletes(sg, align, 0, 0, false, rounds);
    } else {
      var i :| 0 <= i < |sg| && sg[i].len == 0;
      PlayStalls(sg, align, 0, 0, false, rounds, i);
    }
  }

  class DmaRequest {
    const sg: seq<Range>
    const align: nat
    ghost const start: int
    var offset: int
    var sgCurIndex: nat
    var sgCurByte: nat
    var iov: seq<Range>
    var acb: bool
    var bh: bool
    var completions: nat

    /** Every byte requested of the device so far, and where it goes. */
    ghost var moved: seq<(int, int)>

    /** How many maps have not been given back. */
    ghost var held: nat

    ghost predicate Valid()
      reads this
    {
      && align > 0 && At(sg, sgCurIndex, sgCurByte)
      && !(acb && bh)
      && completions <= 1 && (completions == 1 ==> !acb && !bh)
      && offset + (if acb then |Bytes(iov)| else 0) == start + |moved|
      && (!acb ==> iov == [])
      && held >= |iov|
      && Behind(moved, start, Before(sg, sgCurIndex, sgCurByte))
    }

    /** All bytes before the current position were requested, once, in order, at
        consecutive offsets of the device. */
    ghost predicate InOrder()
      requires Valid()
      reads this
    {
      moved == Moves(start, Before(sg, sgCurIndex, sgCurByte))
    }

    /** Maps that will not be given back: a round gives back those in its vector. */
    ghost function Lost(): nat
      requires Valid()
      reads this
    {
      held - |iov|
    }

    constructor (sg: seq<Range>, offset: int, align: nat)
      requires align > 0
      ensures Valid() && InOrder() && completions == 0 && !acb && !bh && held == 0
      ensures this.sg == sg && this.align == align && this.start == offset && sgCurIndex == 0 && sgCurByte == 0
    {
      this.sg, this.align, this.start, this.offset := sg, align, offset, offset;
      sgCurIndex, sgCurByte, iov, acb, bh, completions, moved, held := 0, 0, [], false, false, 0, [], 0;
      new;
      assert sg[..0] == [];
    }

    /** Mapping goes on until memory cannot be mapped or the list ends; `maps` says
        how much each attempt would get. */
    method MapRanges(maps: seq<nat>)
      requires Valid() && iov == [] && !acb
      modifies `sgCurIndex, `sgCurByte, `iov
      ensures At(sg, sgCurIndex, sgCurByte)
      ensures (sgCurIndex, sgCurByte, iov) == MapAll(sg, old(sgCurIndex), old(sgCurByte), [], maps)
    {
      ghost var all := MapAll(sg, sgCurIndex, sgCurByte, [], maps);
      var attempt := 0;
      assert maps[0..] == maps;
      while sgCurIndex < |sg| && attempt < |maps|
        invariant attempt <= |maps| && At(sg, sgCurIndex, sgCurByte)
        invariant all == MapAll(sg, sgCurIndex, sgCurByte, iov, maps[attempt..])
      {
        var entry := sg[sgCurIndex];
        var curAddr := entry.base + sgCurByte;
        var curLen := entry.len - sgCurByte;
        var mapped := Min(maps[attempt], curLen);
        assert maps[attempt..][0] == maps[attempt] && maps[attempt..][1..] == maps[attempt + 1..];
        if mapped == 0 {
          return;
        }
        iov := iov + [Range(curAddr, mapped)];
        sgCurByte := sgCurByte + mapped;
        if sgCurByte == entry.len {
          sgCurByte := 0;
          sgCurIndex := sgCurIndex + 1;
        }
        attempt := attempt + 1;
      }
    }

    /** A request of the device has ended, or memory may be mapped again.  The round
        maps `size` bytes; the order survives exactly when it takes all of them. */
    method BlkCb(ret: int, maps: seq<nat>) returns (ghost size: nat)
      requires Valid() && completions == 0 && !bh
      modifies this
      ensures Valid()
      ensures completions == 1 <==> old(sgCurIndex) == |sg| || ret < 0
      ensures completions == 1 ==> moved == old(moved) && sgCurIndex == old(sgCurIndex) && sgCurByte == old(sgCurByte)
      ensures completions == 0 ==> var r := MapAll(sg, old(sgCurIndex), old(sgCurByte), [], maps);
        sgCurIndex == r.0 && sgCurByte == r.1 && size == |Bytes(r.2)|
      ensures completions == 1 ==> iov == [] && held == old(Lost())
      ensures completions == 0 ==> var r := MapAll(sg, old(sgCurIndex), old(sgCurByte), [], maps);
        Lost() == old(Lost()) + (|r.2| - |Trimmed(r.2, align)|)
      ensures completions == 0 ==> (acb <==> size > 0) && (bh <==> size == 0)
      ensures completions == 0 ==>
        |Before(sg, sgCurIndex, sgCurByte)| == |old(Before(sg, sgCurIndex, sgCurByte))| + size
      ensures completions == 0 ==> var r := MapAll(sg, old(sgCurIndex), old(sgCurByte), [], maps);
        moved == old(moved) + Moves(start + |old(moved)|, Bytes(r.2)[..Taken(size, align)])
      ensures completions == 0 ==> (InOrder() <==> old(InOrder()) && Whole(size, align))
    {
      hide Before, Bytes, Moves, MapAll;
      size := 0;
      acb := false;
      offset := offset + Size(iov);
      held := held - |iov|;
      iov := [];
      if sgCurIndex == |sg| || ret < 0 {
        completions := completions + 1;
        return;
      }
      MapAllBytes(sg, sgCurIndex, sgCurByte, maps);
      MapAllSome(sg, sgCurIndex, sgCurByte, [], maps);
      MapRanges(maps);
      held := held + |iov|;
      size := Size(iov);
      if Size(iov) == 0 {
        bh := true;
        assert Before(sg, sgCurIndex, sgCurByte) == old(Before(sg, sgCurIndex, sgCurByte));
        return;
      }
      Issue(old(Before(sg, sgCurIndex, sgCurByte)));
    }

    /** A map was given back: the waiting request tries again. */
    method Reschedule(maps: seq<nat>) returns (ghost size: nat)
      requires Valid() && bh && completions == 0
      modifies this
      ensures Valid()
      ensures completions == 1 <==> old(sgCurIndex) == |sg|
      ensures completions == 1 ==> moved == old(moved) && sgCurIndex == old(sgCurIndex) && sgCurByte == old(sgCurByte)
      ensures completions == 0 ==> var r := MapAll(sg, old(sgCurIndex), old(sgCurByte), [], maps);
        && sgCurIndex == r.0 && sgCurByte == r.1 && size == |Bytes(r.2)|
        && moved == old(moved) + Moves(start + |old(moved)|, Bytes(r.2)[..Taken(size, align)])
        && Lost() == old(Lost()) + (|r.2| - |Trimmed(r.2, align)|)
      ensures completions == 1 ==> iov == [] && held == old(Lost())
      ensures completions == 0 ==> (acb <==> size > 0) && (bh <==> size == 0)
      ensures completions == 0 ==> (InOrder() <==> old(InOrder()) && Whole(size, align))
    {
      bh := false;
      size := BlkCb(0, maps);
    }

    /** The transfer is where it should be with `rest` still to come, if all of it ends
        as `all` says. */
    ghost predicate Playing(all: End, rest: seq<Round>, whole: bool, lost: nat, failed: bool)
      reads this
    {
      && Valid() && (InOrder() <==> whole) && Lost() == lost
      && if completions == 0
         then !failed && all == Joined(whole, lost, Play(sg, align, sgCurIndex, sgCurByte, acb, rest))
         else iov == [] && all == End(sgCurIndex, sgCurByte, true, failed, whole, lost)
    }

    /** One more round. */
    method Advance(ghost all: End, rounds: seq<Round>, i: nat, ghost whole0: bool, ghost lost0: nat)
      returns (failed: bool, ghost whole: bool, ghost lost: nat)
      requires i < |rounds| && completions == 0 && Playing(all, rounds[i..], whole0, lost0, false)
      modifies this
      ensures Playing(all, rounds[i + 1..], whole, lost, failed)
    {
      hide Play, MapAll, Trimmed, Whole, Moves, Before, Bytes, BytesOf, Behind;
      PlayNext(sg, align, sgCurIndex, sgCurByte, acb, rounds, i);
      ghost var m;
      failed, m := NextRound(rounds[i]);
      whole, lost := whole0, lost0;
      if completions == 0 {
        whole, lost := whole && Whole(Size(m.2), align), lost + (|m.2| - |Trimmed(m.2, align)|);
      }
    }

    /** The next call of the handler, whichever it is. */
    method NextRound(round: Round) returns (failed: bool, ghost m: (nat, nat, seq<Range>))
      requires Valid() && completions == 0
      modifies this
      ensures Valid() && failed == (old(acb) && round.ret < 0)
      ensures completions == 1 <==> old(sgCurIndex) == |sg| || failed
      ensures completions == 1 ==> sgCurIndex == old(sgCurIndex) && sgCurByte == old(sgCurByte)
      ensures completions == 1 ==> iov == [] && held == old(Lost()) && (InOrder() <==> old(InOrder()))
      ensures completions == 0 ==>
        && m == MapAll(sg, old(sgCurIndex), old(sgCurByte), [], round.maps)
        && sgCurIndex == m.0 && sgCurByte == m.1 && (acb <==> Size(m.2) > 0)
        && Lost() == old(Lost()) + (|m.2| - |Trimmed(m.2, align)|)
        && (InOrder() <==> old(InOrder()) && Whole(Size(m.2), align))
    {
      hide Before, Bytes, Moves, MapAll, Trimmed, Whole, Behind;
      m := MapAll(sg, sgCurIndex, sgCurByte, [], round.maps);
      ghost var size;
      failed := acb && round.ret < 0;
      if bh {
        size := Reschedule(round.maps);
      } else {
        size := BlkCb(if acb then round.ret else 0, round.maps);
      }
    }

    /** The request is to be given up.  If the device works on it, its handler will be
        called as ever; otherwise it is completed here. */
    method Cancel()
      requires Valid() && completions == 0
      modifies `bh, `completions
      ensures Valid() && !bh && completions == (if acb then 0 else 1)
    {
      if acb {
        return;
      }
      bh := false;
      completions := completions + 1;
    }

    /** The mapped bytes go to the device, cut to the alignment. */
    method Issue(ghost before: seq<int>)
      requires align > 0 && At(sg, sgCurIndex, sgCurByte) && offset == start + |moved|
      requires Behind(moved, start, before)
      requires Before(sg, sgCurIndex, sgCurByte) == before + Bytes(iov)
      modifies `iov, `moved, `acb
      ensures acb && offset + Size(iov) == start + |moved| && iov == Trimmed(old(iov), align)
      ensures moved == old(moved) + Moves(offset, old(Bytes(iov))[..Taken(old(Size(iov)), align)])
      ensures Behind(moved, start, Before(sg, sgCurIndex, sgCurByte))
      ensures moved == Moves(start, Before(sg, sgCurIndex, sgCurByte))
        <==> old(moved) == Moves(start, before) && Whole(old(Size(iov)), align)
    {
      hide Before, Bytes, Moves, Behind;
      var size := Size(iov);
      Remainder(size, align);
      if size % align != 0 {
        iov := DiscardBack(iov, size / align * align);
      }
      ghost var n := Taken(size, align);
      assert Bytes(iov) == old(Bytes(iov))[..n];
      IssueOrder(start, before, moved, old(Bytes(iov)), n);
      moved := moved + Moves(offset, Bytes(iov));
      acb := true;
    }
  }

  function Size(iov: seq<Range>): (n: nat)
    ensures n == |Bytes(iov)|
  {
    if iov == [] then 0 else Size(iov[..|iov| - 1]) + iov[|iov| - 1].len
  }

  /** At the end of the list, order means that every byte of it was requested once. */
  lemma OrderCoversList(sg: seq<Range>)
    ensures Before(sg, |sg|, 0) == Bytes(sg)
  {
    assert sg[..|sg|] == sg;
    assert Before(sg, |sg|, 0) == Bytes(sg[..|sg|]) + [];
  }

  /** The handler over any sequence of rounds.  A transfer that completes without an
      error has requested every byte of the list once, in order, at consecutive
      offsets if and only if every round took all it mapped.  One that completes at all
      has given back every map but those its rounds cut off. */
  method Transfer(sg: seq<Range>, offset: int, align: nat, rounds: seq<Round>) returns (d: DmaRequest, failed: bool)
    requires align > 0
    ensures fresh(d) && d.Valid() && d.sg == sg && d.align == align && d.start == offset
    ensures var end := Play(sg, align, 0, 0, false, rounds);
      && d.sgCurIndex == end.index && d.sgCurByte == end.byte && failed == end.failed
      && d.completions == (if end.completed then 1 else 0)
      && (d.InOrder() <==> end.whole)
      && (end.completed && !failed ==>
            ((|d.moved| == |Bytes(sg)| && forall i | 0 <= i < |d.moved| :: d.moved[i] == (offset + i, Bytes(sg)[i]))
              <==> end.whole))
      && (end.completed && !failed ==> (|d.moved| < |Bytes(sg)| <==> !end.whole))
      && (end.completed ==> d.held == end.lost)
    ensures |rounds| > |Bytes(sg)| && (forall i {:trigger rounds[i]} | 0 <= i < |rounds| :: Fruitful(rounds[i])) ==>
      (d.completions == 1 <==> NoneEmpty(sg))
  {
    d := new DmaRequest(sg, offset, align);
    failed := false;
    ghost var all := Play(sg, align, 0, 0, false, rounds);
    ghost var whole, lost: nat := true, 0;
    var i := 0;
    assert rounds[0..] == rounds;
    hide Play, MapAll, Trimmed, Whole, Moves, Before, Bytes, BytesOf;
    while i < |rounds| && d.completions == 0
      invariant i <= |rounds| && fresh(d) && d.sg == sg && d.align == align && d.start == offset
      invariant d.Playing(all, rounds[i..], whole, lost, failed)
    {
      failed, whole, lost := d.Advance(all, rounds, i, whole, lost);
      i := i + 1;
    }
    if |rounds| > |Bytes(sg)| && forall i {:trigger rounds[i]} | 0 <= i < |rounds| :: Fruitful(rounds[i]) {
      TransferEnds(sg, align, rounds);
    }
    InOrderMeans(d.moved, offset, Bytes(sg));
    PlayNone(sg, align, d.sgCurIndex, d.sgCurByte, d.acb, rounds[|rounds|..]);
    OrderCoversList(sg);
  }

  /** Two ranges of 512 and 100 bytes at alignment 512.  The one round maps all 612
      bytes and requests the first 100 of them; the transfer then completes, and the
      map of the second range is never given back. */
  method RemainderLost() returns (d: DmaRequest)
    ensures fresh(d) && d.sg == [Range(0, 512), Range(4096, 100)] && d.align == 512
    ensures d.completions == 1 && |d.moved| == 100 && d.moved != Moves(0, Bytes(d.sg)) && d.held == 1
  {
    var sg := [Range(0, 512), Range(4096, 100)];
    d := new DmaRequest(sg, 0, 512);
    MapsBoth();
    ghost var size := d.BlkCb(0, [512, 100]);
    size := d.BlkCb(0, []);
    OrderCoversList(sg);
  }

  lemma MapsBoth()
    ensures var sg := [Range(0, 512), Range(4096, 100)];
      MapAll(sg, 0, 0, [], [512, 100]) == (2, 0, sg) && |Bytes(sg)| == 612 && |Trimmed(sg, 512)| == 1
  {
    hide Bytes, BytesOf;
    var a, b := Range(0, 512), Range(4096, 100);
    assert [512, 100][1..] == [100] && [100][1..] == [];
    assert [] + [a] == [a] && [a] + [b] == [a, b];
    assert MapAll([a, b], 1, 0, [a], [100]) == (2, 0, [a, b]);
    assert [a, b][..1] == [a] && [a][..0] == [];
    assert Size([a]) == 512 && Size([a, b]) == 612;
  }

  // ---- Copies without a device ------------------------------------------------

  const TWO31: int := 0x8000_0000
  const TWO32: int := 0x1_0000_0000
  const TWO64: int := 0x1_0000_0000_0000_0000

  /** The minimum is taken in 64 unsigned bits and cut to 32 signed ones: a negative
      length stands for the whole list, as far as its size fits. */
  function CopyLength(len: int, size: nat): (n: int)
    requires -TWO31 <= len < TWO31 && size < TWO64
    ensures n <= size
    ensures len >= 0 ==> n == Min(len, size)
    ensures len < 0 && size < TWO31 ==> n == size
    ensures len < 0 && size < TWO64 - TWO31 ==> -0x8000_0000 <= n < 0x8000_0000 && (n - size) % 0x1_0000_0000 == 0
  {
    var least := Min(if len < 0 then len + TWO64 else len, size);
    (least + TWO31) % TWO32 - TWO31
  }

  /** A buffer is copied to or from the scatter list: the first bytes of the list,
      in order, as many as both have; what is left of the list is returned. */
  method DmaBufRw(len: int, sg: seq<Range>) returns (resid: nat, accessed: seq<Range>)
    requires -TWO31 <= len < TWO31 && |Bytes(sg)| < TWO64
    ensures var n := CopyLength(len, |Bytes(sg)|);
      if n <= 0 then accessed == [] && resid == |Bytes(sg)|
      else Bytes(accessed) == Bytes(sg)[..n] && resid == |Bytes(sg)| - n
  {
    resid := Size(sg);
    var n := CopyLength(len, resid);
    if n <= 0 {
      accessed := [];
      return;
    }
    var left: nat := n;
    var index := 0;
    accessed := [];
    ghost var total := left;
    assert sg[..0] == [];
    assert Bytes(accessed) == [];
    hide Bytes;
    while left > 0
      invariant index <= |sg| && left <= total == n <= |Bytes(sg)|
      invariant resid == |Bytes(sg)| - (total - left)
      invariant |Bytes(accessed)| == total - left && Bytes(accessed) <= Bytes(sg)
      invariant left > 0 ==> Bytes(accessed) == Bytes(sg[..index])
      decreases left, |sg| - index
    {
      CopyNext(sg, index, left, total, accessed);
      var entry := sg[index];
      index := index + 1;
      var xfer := Min(left, entry.len);
      accessed := accessed + [Range(entry.base, xfer)];
      left := left - xfer;
      resid := resid - xfer;
    }
    PrefixIs(Bytes(accessed), Bytes(sg));
    assert |Bytes(accessed)| == n;
  }

  lemma PrefixIs(a: seq<int>, b: seq<int>)
    requires a <= b
    ensures a == b[..|a|]
  {
  }

  lemma RangePrefix(r: Range, x: nat)
    requires x <= r.len
    ensures BytesOf(Range(r.base, x)) == BytesOf(r)[..x]
    ensures x == r.len ==> BytesOf(r)[..x] == BytesOf(r)
  {
  }

  /** The list has an entry left, and all or the needed part of it is accessed. */
  lemma CopyNext(sg: seq<Range>, index: nat, left: nat, total: nat, accessed: seq<Range>)
    requires index <= |sg| && 0 < left <= total <= |Bytes(sg)|
    requires |Bytes(accessed)| == total - left && Bytes(accessed) == Bytes(sg[..index])
    ensures index < |sg|
    ensures var next := accessed + [Range(sg[index].base, Min(left, sg[index].len))];
      && |Bytes(next)| == total - left + Min(left, sg[index].len)
      && Bytes(next) <= Bytes(sg)
      && (left > Min(left, sg[index].len) ==> Bytes(next) == Bytes(sg[..index + 1]))
  {
    hide Bytes, BytesOf;
    assert sg[..|sg|] == sg;
    var entry := sg[index];
    var x := Min(left, entry.len);
    BytesSnoc(accessed, Range(entry.base, x));
    assert sg[..index + 1] == sg[..index] + [entry];
    BytesSnoc(sg[..index], entry);
    BytesPrefix(sg, index + 1);
    RangePrefix(entry, x);
  }
}
