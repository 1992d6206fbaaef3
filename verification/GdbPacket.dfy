/** The packet layer of the debugger connection: framing, escaping, run-length
    decoding, checksums, acknowledgement and retransmission. */
module GdbPacket {
  import opened Helpers

  type Byte = b: int | 0 <= b < 256

  const DOLLAR: Byte := 0x24
  const HASH: Byte := 0x23
  const STAR: Byte := 0x2a
  const BRACE: Byte := 0x7d
  const PLUS: Byte := 0x2b
  const MINUS: Byte := 0x2d
  const SPACE: Byte := 0x20

  const MAX_PACKET_LENGTH := 4096

  datatype RsState = Idle | GetLine | GetLineEsc | GetLineRle | Chksum1 | Chksum2

  /** The server's end of the connection.  `report` is what it tells the debugger if
      the machine stops, `output` is everything it sent and `packets` every command
      it accepted. */
  datatype Server = Server(
    state: RsState,
    line: seq<Byte>,
    lineSum: int,
    lineCsum: int,
    lastPacket: seq<Byte>,
    running: bool,
    report: Option<seq<Byte>>,
    output: seq<Byte>,
    packets: seq<seq<Byte>>)

  /** Exclusive or with 0x20. */
  function Flip(b: Byte): (r: Byte)
    ensures r != b && r % 32 == b % 32 && r / 64 == b / 64
  {
    if (b / 32) % 2 == 1 then b - 32 else b + 32
  }

  lemma FlipFlip(b: Byte)
    ensures Flip(Flip(b)) == b
  {
    var q := b / 32;
    if q % 2 == 1 {
      assert (b - 32) / 32 == q - 1;
    } else {
      assert (b + 32) / 32 == q + 1;
    }
  }

  predicate IsHexDigit(b: Byte)
  {
    0x30 <= b <= 0x39 || 0x41 <= b <= 0x46 || 0x61 <= b <= 0x66
  }

  const DECIMALS: seq<Byte> := [0x30, 0x31, 0x32, 0x33, 0x34, 0x35, 0x36, 0x37, 0x38, 0x39]
  const DIGITS: seq<Byte> := DECIMALS + [0x61, 0x62, 0x63, 0x64, 0x65, 0x66]
  const CAPITALS: seq<Byte> := DECIMALS + [0x41, 0x42, 0x43, 0x44, 0x45, 0x46]

  function FromHex(b: Byte): (r: int)
    ensures 0 <= r < 16
    ensures if IsHexDigit(b) then b == DIGITS[r] || b == CAPITALS[r] else r == 0
  {
    if 0x30 <= b <= 0x39 then b - 0x30
    else if 0x41 <= b <= 0x46 then b - 0x41 + 10
    else if 0x61 <= b <= 0x66 then b - 0x61 + 10
    else 0
  }

  function ToHex(v: int): (r: Byte)
    requires 0 <= v < 16
    ensures IsHexDigit(r) && FromHex(r) == v
  {
    if v < 10 then v + 0x30 else v - 10 + 0x61
  }

  // ---- Receiving -------------------------------------------------------------

  function Repeat(b: Byte, n: nat): (r: seq<Byte>)
    ensures |r| == n && forall i | 0 <= i < n :: r[i] == b
  {
    seq(n, _ => b)
  }

  function ParseLine(s: Server, ch: Byte): Server
  {
    if ch == BRACE then s.(state := GetLineEsc, lineSum := s.lineSum + ch)
    else if ch == STAR then s.(state := GetLineRle, lineSum := s.lineSum + ch)
    else if ch == HASH then s.(state := Chksum1)
    else if |s.line| >= MAX_PACKET_LENGTH - 1 then s.(state := Idle)
    else s.(line := s.line + [ch], lineSum := s.lineSum + ch)
  }

  function ParseEsc(s: Server, ch: Byte): Server
  {
    if ch == HASH then s.(state := Chksum1)
    else if |s.line| >= MAX_PACKET_LENGTH - 1 then s.(state := Idle)
    else s.(state := GetLine, line := s.line + [Flip(ch)], lineSum := s.lineSum + ch)
  }

  function ParseRle(s: Server, ch: Byte): Server
  {
    if ch < SPACE || ch == HASH || ch == DOLLAR || ch > 126 then s.(state := GetLine)
    else
      var repeat := ch - SPACE + 3;
      if |s.line| + repeat >= MAX_PACKET_LENGTH - 1 then s.(state := Idle)
      else if |s.line| < 1 then s.(state := GetLine)
      else s.(state := GetLine, line := s.line + Repeat(s.line[|s.line| - 1], repeat), lineSum := s.lineSum + ch)
  }

  function ParseChksum1(s: Server, ch: Byte): Server
  {
    if !IsHexDigit(ch) then s.(state := GetLine)
    else s.(state := Chksum2, lineCsum := FromHex(ch) * 16)
  }

  function ParseChksum2(s: Server, ch: Byte): Server
  {
    if !IsHexDigit(ch) then s.(state := GetLine)
    else
      var csum := s.lineCsum + FromHex(ch);
      var s1 := s.(lineCsum := csum, state := Idle);
      if csum != s.lineSum % 256 then s1.(output := s.output + [MINUS])
      else s1.(output := s.output + [PLUS], packets := s.packets + [s.line])
  }

  function Parse(s: Server, ch: Byte): Server
  {
    match s.state
    case Idle => if ch == DOLLAR then s.(state := GetLine, line := [], lineSum := 0) else s
    case GetLine => ParseLine(s, ch)
    case GetLineEsc => ParseEsc(s, ch)
    case GetLineRle => ParseRle(s, ch)
    case Chksum1 => ParseChksum1(s, ch)
    case Chksum2 => ParseChksum2(s, ch)
  }

  /** The machine stops, and the debugger is told if there is anything to tell. */
  function Stop(s: Server): Server
  {
    var stopped := s.(running := false);
    if s.report.None? then stopped else PutPacket(stopped, s.report.value)
  }

  /** While the machine runs, a byte only stops it. */
  function Receive(s: Server, ch: Byte): Server
  {
    if s.running then Stop(s) else Parse(s, ch)
  }

  /** While a reply is not acknowledged, only the start of a new command gets through. */
  function ReadByte(s: Server, ch: Byte): Server
  {
    if s.lastPacket == [] then Receive(s, ch)
    else
      var s1 := if ch == MINUS then s.(output := s.output + s.lastPacket) else s;
      var s2 := if ch == PLUS || ch == DOLLAR then s1.(lastPacket := []) else s1;
      if ch != DOLLAR then s2 else Receive(s2, ch)
  }

  function Run(s: Server, bytes: seq<Byte>): Server
    decreases |bytes|
  {
    if bytes == [] then s else Run(ReadByte(s, bytes[0]), bytes[1..])
  }

  lemma {:induction false} RunAppend(s: Server, a: seq<Byte>, b: seq<Byte>)
    ensures Run(s, a + b) == Run(Run(s, a), b)
    decreases |a|
  {
    if a == [] {
      assert a + b == b;
    } else {
      assert (a + b)[0] == a[0] && (a + b)[1..] == a[1..] + b;
      RunAppend(ReadByte(s, a[0]), a[1..], b);
    }
  }

  lemma RunOne(s: Server, ch: Byte)
    ensures Run(s, [ch]) == ReadByte(s, ch)
  {
  }

  ghost predicate Bounded(s: Server)
  {
    |s.line| <= 4095
  }

  lemma ReadByteBounded(s: Server, ch: Byte)
    requires Bounded(s)
    ensures Bounded(ReadByte(s, ch))
  {
  }

  /** No stream of bytes overruns the line buffer, its terminator included. */
  lemma {:induction false} RunBounded(s: Server, bytes: seq<Byte>)
    requires Bounded(s)
    ensures Bounded(Run(s, bytes))
    decreases |bytes|
  {
    if bytes != [] {
      ReadByteBounded(s, bytes[0]);
      RunBounded(ReadByte(s, bytes[0]), bytes[1..]);
    }
  }

  // ---- Items -----------------------------------------------------------------

  /** What a sender may put between the start and the end of a packet. */
  datatype Item = Plain(b: Byte) | Escaped(b: Byte) | Again(count: nat)

  function Wire(i: Item): seq<Byte>
    requires WellFormed(i)
  {
    match i
    case Plain(b) => [b]
    case Escaped(b) => [BRACE, Flip(b)]
    case Again(n) => [STAR, n - 3 + SPACE]
  }

  predicate WellFormed(i: Item)
  {
    match i
    case Plain(b) => b != BRACE && b != STAR && b != HASH
    case Escaped(b) => Flip(b) != HASH
    case Again(n) => 3 <= n <= 126 - SPACE + 3 && n - 3 + SPACE != HASH && n - 3 + SPACE != DOLLAR
  }

  /** What an item adds to the line. */
  function Meaning(line: seq<Byte>, i: Item): seq<Byte>
  {
    match i
    case Plain(b) => line + [b]
    case Escaped(b) => line + [b]
    case Again(n) => if line == [] then line else line + Repeat(line[|line| - 1], n)
  }

  /** The item fits; a repetition must leave one more byte free than a character. */
  predicate Fits(line: seq<Byte>, i: Item)
  {
    && WellFormed(i)
    && if i.Again? then line != [] && |line| + i.count < MAX_PACKET_LENGTH - 1
       else |line| < MAX_PACKET_LENGTH - 1
  }

  function Sum(bytes: seq<Byte>): (r: int)
    ensures r >= 0
  {
    if bytes == [] then 0 else bytes[0] + Sum(bytes[1..])
  }

  lemma {:induction false} SumAppend(a: seq<Byte>, b: seq<Byte>)
    ensures Sum(a + b) == Sum(a) + Sum(b)
  {
    if a == [] {
      assert a + b == b;
    } else {
      assert (a + b)[0] == a[0] && (a + b)[1..] == a[1..] + b;
      SumAppend(a[1..], b);
    }
  }

  ghost predicate Listening(s: Server)
  {
    s.lastPacket == [] && !s.running
  }

  lemma RunTwo(s: Server, a: Byte, b: Byte)
    ensures Run(s, [a, b]) == ReadByte(ReadByte(s, a), b)
  {
    assert [a, b] == [a] + [b];
    RunAppend(s, [a], [b]);
    RunOne(s, a);
    RunOne(ReadByte(s, a), b);
  }

  lemma ReadPlain(s: Server, b: Byte)
    requires Listening(s) && s.state.GetLine? && Fits(s.line, Plain(b))
    ensures Run(s, [b]) == s.(line := s.line + [b], lineSum := s.lineSum + b)
  {
    hide Flip;
    RunOne(s, b);
  }

  lemma ReadEscape(s: Server, b: Byte)
    requires Listening(s) && s.state.GetLine? && Fits(s.line, Escaped(b))
    ensures Run(s, [BRACE, Flip(b)]) == s.(line := s.line + [b], lineSum := s.lineSum + BRACE + Flip(b))
  {
    hide Flip;
    RunTwo(s, BRACE, Flip(b));
    FlipFlip(b);
  }

  lemma ReadAgain(s: Server, n: nat)
    requires Listening(s) && s.state.GetLine? && Fits(s.line, Again(n))
    ensures Run(s, [STAR, n - 3 + SPACE]) ==
      s.(line := s.line + Repeat(s.line[|s.line| - 1], n), lineSum := s.lineSum + STAR + (n - 3 + SPACE))
  {
    hide Flip, Run, ParseEsc, ParseChksum1, ParseChksum2, Stop, Repeat;
    RunTwo(s, STAR, n - 3 + SPACE);
    var s1 := s.(state := GetLineRle, lineSum := s.lineSum + STAR);
    assert ReadByte(s, STAR) == s1;
    assert ReadByte(s1, n - 3 + SPACE) == ParseRle(s1, n - 3 + SPACE);
  }

  /** A run length, by its byte: 3 to 97 more of the last byte, if that leaves room for
      one more; two of these counts would look like the end or the start of a packet. */
  lemma RunLengthRead(s: Server, n: nat)
    requires Listening(s) && s.state.GetLine? && s.line != [] && 3 <= n <= 97 && n != 6 && n != 7
    ensures var r := Run(s, [0x2a, n + 29]);
      if |s.line| + n < 4095
      then r.state.GetLine? && r.line == s.line + seq(n, _ => s.line[|s.line| - 1])
      else r.state.Idle? && r.line == s.line && r.packets == s.packets && r.output == s.output
  {
    if |s.line| + n < 4095 {
      ReadAgain(s, n);
      assert Repeat(s.line[|s.line| - 1], n) == seq(n, _ => s.line[|s.line| - 1]);
    } else {
      RunTwo(s, STAR, n + 29);
    }
  }

  /** A byte that is no digit, where a checksum is expected, goes back to the line. */
  lemma BadDigit(s: Server, ch: Byte)
    requires Listening(s) && (s.state.Chksum1? || s.state.Chksum2?) && !IsHexDigit(ch)
    ensures Run(s, [ch]) == s.(state := GetLine)
  {
    RunOne(s, ch);
  }

  /** A receiver reads one item as what it means. */
  lemma ReadItem(s: Server, i: Item)
    requires Listening(s) && s.state.GetLine? && Fits(s.line, i)
    ensures Run(s, Wire(i)) == s.(line := Meaning(s.line, i), lineSum := s.lineSum + Sum(Wire(i)))
  {
    hide Flip, Run;
    match i
    case Plain(b) => ReadPlain(s, b);
    case Escaped(b) =>
      ReadEscape(s, b);
      SumTwo(BRACE, Flip(b));
    case Again(n) =>
      ReadAgain(s, n);
      SumTwo(STAR, n - 3 + SPACE);
  }

  lemma SumTwo(a: Byte, b: Byte)
    ensures Sum([a, b]) == a + b
  {
    assert [a, b][1..] == [b] && [b][1..] == [];
    assert Sum([b]) == b;
  }

  function WireAll(items: seq<Item>): seq<Byte>
    requires forall i | i in items :: WellFormed(i)
  {
    if items == [] then [] else Wire(items[0]) + WireAll(items[1..])
  }

  function Expand(line: seq<Byte>, items: seq<Item>): seq<Byte>
    decreases |items|
  {
    if items == [] then line else Expand(Meaning(line, items[0]), items[1..])
  }

  predicate AllFit(line: seq<Byte>, items: seq<Item>)
    decreases |items|
  {
    items == [] || (Fits(line, items[0]) && AllFit(Meaning(line, items[0]), items[1..]))
  }

  lemma {:induction false} ReadItems(s: Server, items: seq<Item>)
    requires Listening(s) && s.state.GetLine? && AllFit(s.line, items)
    requires forall i | i in items :: WellFormed(i)
    ensures Run(s, WireAll(items)) == s.(line := Expand(s.line, items), lineSum := s.lineSum + Sum(WireAll(items)))
    decreases |items|
  {
    if items != [] {
      ReadItem(s, items[0]);
      var s1 := Run(s, Wire(items[0]));
      RunAppend(s, Wire(items[0]), WireAll(items[1..]));
      ReadItems(s1, items[1..]);
      SumAppend(Wire(items[0]), WireAll(items[1..]));
    }
  }

  // ---- Packets ---------------------------------------------------------------

  /** A packet with body `body`: the checksum is taken modulo 256. */
  function Frame(body: seq<Byte>): seq<Byte>
  {
    [DOLLAR] + body + Footer(Sum(body))
  }

  function Footer(sum: int): (r: seq<Byte>)
    ensures |r| == 3
  {
    [HASH, ToHex(sum % 256 / 16), ToHex(sum % 16)]
  }

  /** The footer of the right checksum is acknowledged and the line is accepted;
      any other checksum is refused. */
  lemma ReadFooter(s: Server, sum: int)
    requires Listening(s) && s.state.GetLine?
    ensures var r := Run(s, Footer(sum));
      if sum % 256 == s.lineSum % 256
      then r == s.(state := Idle, lineCsum := sum % 256, output := s.output + [PLUS], packets := s.packets + [s.line])
      else r == s.(state := Idle, lineCsum := sum % 256, output := s.output + [MINUS])
  {
    var f := Footer(sum);
    var s1 := ReadByte(s, f[0]);
    assert s1 == s.(state := Chksum1);
    assert f == [f[0]] + [f[1], f[2]];
    RunAppend(s, [f[0]], [f[1], f[2]]);
    RunOne(s, f[0]);
    RunTwo(s1, f[1], f[2]);
    HexDigits(sum);
  }

  lemma DivMod(x: int, d: int, m: int)
    requires x == 16 * d + m && 0 <= m < 16
    ensures x / 16 == d && x % 16 == m
  {
  }

  /** The two digits of a checksum only depend on the sum modulo 256. */
  lemma HexDigits(sum: int)
    ensures sum % 16 == sum % 256 % 16 && sum / 16 % 16 == sum % 256 / 16
    ensures sum % 256 / 16 * 16 + sum % 16 == sum % 256
  {
    var q, r := sum / 256, sum % 256;
    var a, b := r / 16, r % 16;
    DivMod(sum, 16 * q + a, b);
    DivMod(16 * q + a, q, a);
  }

  /** Any sequence of items that fits, framed, is accepted with the meaning it has,
      by a receiver in whatever other state, also one that waits for a reply to be
      acknowledged: the start of a command ends that wait. */
  lemma FrameAccepted(s: Server, items: seq<Item>)
    requires !s.running && s.state.Idle? && AllFit([], items)
    requires forall i | i in items :: WellFormed(i)
    ensures var r := Run(s, Frame(WireAll(items)));
      && r.state.Idle? && Listening(r)
      && r.output == s.output + [PLUS]
      && r.packets == s.packets + [Expand([], items)]
  {
    var body := WireAll(items);
    var s1 := s.(state := GetLine, line := [], lineSum := 0, lastPacket := []);
    RunOne(s, DOLLAR);
    RunAppend(s, [DOLLAR], body + Footer(Sum(body)));
    assert [DOLLAR] + body + Footer(Sum(body)) == [DOLLAR] + (body + Footer(Sum(body)));
    RunAppend(s1, body, Footer(Sum(body)));
    ReadItems(s1, items);
    ReadFooter(Run(s1, body), Sum(body));
  }

  // ---- The sender's escaping -------------------------------------------------

  predicate Special(b: Byte)
  {
    b == HASH || b == DOLLAR || b == STAR || b == BRACE
  }

  function EscapeByte(b: Byte): seq<Byte>
  {
    if Special(b) then [BRACE, Flip(b)] else [b]
  }

  function Escape(m: seq<Byte>): seq<Byte>
  {
    if m == [] then [] else EscapeByte(m[0]) + Escape(m[1..])
  }

  function ItemOf(b: Byte): (i: Item)
    ensures WellFormed(i) && Wire(i) == EscapeByte(b) && !i.Again? && i.b == b
  {
    if Special(b) then Escaped(b) else Plain(b)
  }

  function ItemsOf(m: seq<Byte>): (r: seq<Item>)
    ensures |r| == |m| && forall i | i in r :: WellFormed(i)
  {
    if m == [] then [] else [ItemOf(m[0])] + ItemsOf(m[1..])
  }

  lemma {:induction false} ItemsOfMeaning(line: seq<Byte>, m: seq<Byte>)
    requires |line| + |m| <= MAX_PACKET_LENGTH - 1
    ensures WireAll(ItemsOf(m)) == Escape(m)
    ensures Expand(line, ItemsOf(m)) == line + m && AllFit(line, ItemsOf(m))
    decreases |m|
  {
    if m != [] {
      var items := ItemsOf(m);
      assert items[0] == ItemOf(m[0]) && items[1..] == ItemsOf(m[1..]);
      ItemsOfMeaning(line + [m[0]], m[1..]);
      assert line + [m[0]] + m[1..] == line + m;
    } else {
      assert line + m == line;
    }
  }

  /** What the server escapes and frames, a receiver of the same kind takes apart
      again: any payload of at most 4095 bytes. */
  lemma RoundTrip(s: Server, m: seq<Byte>)
    requires !s.running && s.state.Idle? && |m| <= 4095
    ensures var r := Run(s, Frame(Escape(m)));
      r.state.Idle? && Listening(r) && r.output == s.output + [PLUS] && r.packets == s.packets + [m]
  {
    ItemsOfMeaning([], m);
    FrameAccepted(s, ItemsOf(m));
    assert [] + m == m;
  }

  /** Without a start byte an idle receiver ignores everything. */
  lemma {:induction false} IdleIgnores(s: Server, bytes: seq<Byte>)
    requires Listening(s) && s.state.Idle? && DOLLAR !in bytes
    ensures Run(s, bytes) == s
    decreases |bytes|
  {
    if bytes != [] {
      assert ReadByte(s, bytes[0]) == s;
      IdleIgnores(s, bytes[1..]);
    }
  }

  lemma {:induction false} EscapeNoStart(m: seq<Byte>)
    ensures DOLLAR !in Escape(m)
  {
    if m != [] { EscapeNoStart(m[1..]); }
  }

  lemma {:induction false} EscapeAppend(a: seq<Byte>, b: seq<Byte>)
    ensures Escape(a + b) == Escape(a) + Escape(b)
  {
    if a == [] {
      assert a + b == b;
    } else {
      assert (a + b)[0] == a[0] && (a + b)[1..] == a[1..] + b;
      EscapeAppend(a[1..], b);
    }
  }

  /** A longer payload is dropped without an answer. */
  lemma TooLongIgnored(s: Server, m: seq<Byte>)
    requires !s.running && s.state.Idle? && |m| > 4095
    ensures var r := Run(s, Frame(Escape(m)));
      r.state.Idle? && Listening(r) && r.output == s.output && r.packets == s.packets
  {
    hide Run, Escape, EscapeByte, Footer, Frame, Sum;
    var a, b := m[..4095], m[4095];
    var tail := Escape(m[4096..]) + Footer(Sum(Escape(m)));
    LongFrame(m);
    RunAppend(s, [DOLLAR] + Escape(a), EscapeByte(b) + tail);
    LineFull(s, a);
    var s2 := Run(s, [DOLLAR] + Escape(a));
    RunAppend(s2, EscapeByte(b), tail);
    FullDrops(s2, b);
    IdleIgnores(Run(s2, EscapeByte(b)), tail);
  }

  lemma LongFrame(m: seq<Byte>)
    requires |m| > 4095
    ensures var tail := Escape(m[4096..]) + Footer(Sum(Escape(m)));
      Frame(Escape(m)) == ([DOLLAR] + Escape(m[..4095])) + (EscapeByte(m[4095]) + tail) && DOLLAR !in tail
  {
    var a, b, rest := m[..4095], m[4095], m[4096..];
    assert m == a + ([b] + rest);
    EscapeAppend(a, [b] + rest);
    EscapeFirst(b, rest);
    EscapeNoStart(rest);
    FooterNoStart(Sum(Escape(m)));
    hide Escape, EscapeByte, Footer, Sum;
    Regroup([DOLLAR], Escape(a), EscapeByte(b), Escape(rest), Footer(Sum(Escape(m))));
  }

  lemma EscapeFirst(b: Byte, rest: seq<Byte>)
    ensures Escape([b] + rest) == EscapeByte(b) + Escape(rest)
  {
    assert ([b] + rest)[0] == b && ([b] + rest)[1..] == rest;
  }

  lemma FooterNoStart(sum: int)
    ensures DOLLAR !in Footer(sum)
  {
  }

  lemma Regroup(a: seq<Byte>, b: seq<Byte>, c: seq<Byte>, d: seq<Byte>, e: seq<Byte>)
    ensures a + (b + (c + d)) + e == (a + b) + (c + (d + e))
  {
  }

  lemma LineFull(s: Server, a: seq<Byte>)
    requires !s.running && s.state.Idle? && |a| == 4095
    ensures var r := Run(s, [DOLLAR] + Escape(a));
      Listening(r) && r.state.GetLine? && |r.line| == 4095 && r.output == s.output && r.packets == s.packets
  {
    var s1 := s.(state := GetLine, line := [], lineSum := 0, lastPacket := []);
    RunOne(s, DOLLAR);
    RunAppend(s, [DOLLAR], Escape(a));
    ItemsOfMeaning([], a);
    ReadItems(s1, ItemsOf(a));
  }

  lemma FullDrops(s: Server, b: Byte)
    requires Listening(s) && s.state.GetLine? && |s.line| == MAX_PACKET_LENGTH - 1
    ensures var r := Run(s, EscapeByte(b));
      r.state.Idle? && Listening(r) && r.output == s.output && r.packets == s.packets
  {
    if Special(b) { RunTwo(s, BRACE, Flip(b)); } else { RunOne(s, b); }
  }

  // ---- Sending ---------------------------------------------------------------

  function PutPacket(s: Server, body: seq<Byte>): Server
  {
    s.(lastPacket := Frame(body), output := s.output + Frame(body))
  }

  function Times(packet: seq<Byte>, n: nat): seq<Byte>
  {
    if n == 0 then [] else packet + Times(packet, n - 1)
  }

  /** A reply is sent again for every refusal and nothing else happens until it is
      acknowledged; the acknowledgement ends that. */
  lemma {:induction false} Retransmit(s: Server, nacks: nat)
    requires s.lastPacket != []
    ensures Run(s, Repeat(MINUS, nacks) + [PLUS]) ==
      s.(output := s.output + Times(s.lastPacket, nacks), lastPacket := [])
    decreases nacks
  {
    var bytes := Repeat(MINUS, nacks) + [PLUS];
    if nacks == 0 {
      assert bytes == [PLUS];
      RunOne(s, PLUS);
      assert s.output + [] == s.output;
    } else {
      assert bytes[1..] == Repeat(MINUS, nacks - 1) + [PLUS];
      var s1 := s.(output := s.output + s.lastPacket);
      assert ReadByte(s, MINUS) == s1;
      Retransmit(s1, nacks - 1);
      assert s.output + s.lastPacket + Times(s.lastPacket, nacks - 1) == s.output + Times(s.lastPacket, nacks);
    }
  }

  /** Nothing but an acknowledgement, a refusal or the start of a command gets through
      to a server that waits. */
  lemma WaitingIgnores(s: Server, ch: Byte)
    requires s.lastPacket != [] && ch != PLUS && ch != MINUS && ch != DOLLAR
    ensures Run(s, [ch]) == s
  {
    RunOne(s, ch);
  }

  /** The reply "OK" as the protocol writes it. */
  lemma KnownReply()
    ensures Frame([0x4f, 0x4b]) == [0x24, 0x4f, 0x4b, 0x23, 0x39, 0x61]
  {
    var ok: seq<Byte> := [0x4f, 0x4b];
    assert ok[1..] == [0x4b] && ok[1..][1..] == [];
    assert Sum(ok) == 0x9a;
  }

  /** A zero and a run length of three more. */
  lemma KnownRunLength()
    ensures WireAll([Plain(0x30), Again(3)]) == [0x30, 0x2a, 0x20]
    ensures Expand([], [Plain(0x30), Again(3)]) == [0x30, 0x30, 0x30, 0x30]
  {
    var items := [Plain(0x30), Again(3)];
    assert items[1..] == [Again(3)] && items[1..][1..] == [];
    assert [] + [0x30] == [0x30];
  }

  /** The four bytes that are escaped. */
  lemma KnownEscapes()
    ensures EscapeByte(0x23) == [0x7d, 0x03] && EscapeByte(0x24) == [0x7d, 0x04]
    ensures EscapeByte(0x2a) == [0x7d, 0x0a] && EscapeByte(0x7d) == [0x7d, 0x5d]
    ensures forall b: Byte | b !in [0x23, 0x24, 0x2a, 0x7d] :: EscapeByte(b) == [b]
  {
  }

  /** Any byte stops a machine that runs.  The report of that is then a reply like any
      other: it is sent again for every refusal until it is acknowledged. */
  lemma StopReported(s: Server, ch: Byte, nacks: nat)
    requires s.lastPacket == [] && s.running && s.report.Some?
    ensures var packet := Frame(s.report.value);
      Run(s, [ch] + (Repeat(MINUS, nacks) + [PLUS])) ==
        s.(running := false, output := s.output + packet + Times(packet, nacks))
  {
    RunAppend(s, [ch], Repeat(MINUS, nacks) + [PLUS]);
    RunOne(s, ch);
    Retransmit(Stop(s), nacks);
  }

  // ---- Hexadecimal text ------------------------------------------------------

  function Nibbles(b: Byte): (r: seq<Byte>)
    ensures |r| == 2 && FromNibbles(r[0], r[1]) == b
  {
    [ToHex(b / 16), ToHex(b % 16)]
  }

  function FromNibbles(hi: Byte, lo: Byte): Byte
  {
    FromHex(hi) * 16 + FromHex(lo)
  }

  function MemToHex(m: seq<Byte>): seq<Byte>
  {
    if m == [] then [] else Nibbles(m[0]) + MemToHex(m[1..])
  }

  function HexToMem(text: seq<Byte>, len: nat): seq<Byte>
    requires 2 * len <= |text|
  {
    if len == 0 then [] else [FromNibbles(text[0], text[1])] + HexToMem(text[2..], len - 1)
  }

  /** Memory written as text and read back is unchanged, whatever follows the text. */
  lemma {:induction false} HexRoundTrip(m: seq<Byte>, rest: seq<Byte>)
    ensures |MemToHex(m)| == 2 * |m|
    ensures HexToMem(MemToHex(m) + rest, |m|) == m
    decreases |m|
  {
    hide FromNibbles, Nibbles;
    if m != [] {
      HexRoundTrip(m[1..], rest);
      var two, tail := Nibbles(m[0]), MemToHex(m[1..]) + rest;
      var text := MemToHex(m) + rest;
      assert text == two + tail;
      assert text[0] == two[0] && text[1] == two[1] && text[2..] == tail;
      assert m == [m[0]] + m[1..];
    }
  }
}
