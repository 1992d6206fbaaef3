/** The debugger connection as the server keeps it: a fixed line buffer filled byte
    by byte, and the packet it sends. */
module GdbServer {
  import opened Helpers
  import opened GdbPacket

  /** A byte as the signed characters the checksum loop adds up. */
  function Signed(b: Byte): int
  {
    if b < 128 then b else b - 256
  }

  function SignedSum(bytes: seq<Byte>): int
  {
    if bytes == [] then 0 else SignedSum(bytes[..|bytes| - 1]) + Signed(bytes[|bytes| - 1])
  }

  /** Signed or not, the sums agree modulo 256. */
  lemma {:induction false} SignedSumAgrees(bytes: seq<Byte>) returns (k: int)
    ensures SignedSum(bytes) == Sum(bytes) - 256 * k
  {
    if bytes == [] {
      k := 0;
    } else {
      var front, last := bytes[..|bytes| - 1], bytes[|bytes| - 1];
      k := SignedSumAgrees(front);
      assert bytes == front + [last];
      SumAppend(front, [last]);
      assert [last][1..] == [];
      assert Sum([last]) == last;
      k := k + if last < 128 then 0 else 1;
    }
  }

  lemma ModShift(a: int, k: int)
    ensures (a - 256 * k) % 256 == a % 256
  {
    var q, r := a / 256, a % 256;
    assert a - 256 * k == 256 * (q - k) + r;
    ModUnique(a - 256 * k, q - k, r);
  }

  lemma ModUnique(a: int, q: int, r: int)
    requires a == 256 * q + r && 0 <= r < 256
    ensures a % 256 == r
  {
  }

  /** The frame with the digits of the signed sum is the one with those of the unsigned. */
  lemma SignedFrame(buf: seq<Byte>)
    ensures var csum := SignedSum(buf);
      [DOLLAR] + buf + [HASH, ToHex(csum / 16 % 16), ToHex(csum % 16)] == Frame(buf)
  {
    hide ToHex;
    CheckDigits(buf);
  }

  lemma CheckDigits(buf: seq<Byte>)
    ensures SignedSum(buf) / 16 % 16 == Sum(buf) % 256 / 16 && SignedSum(buf) % 16 == Sum(buf) % 16
  {
    var k := SignedSumAgrees(buf);
    ModShift(Sum(buf), k);
    HexDigits(SignedSum(buf));
    HexDigits(Sum(buf));
  }

  class GdbState {
    var state: RsState
    const lineBuf: array<Byte>
    var lineBufIndex: nat
    var lineSum: int
    var lineCsum: int
    var lastPacket: seq<Byte>
    var running: bool
    var report: Option<seq<Byte>>
    var output: seq<Byte>
    var packets: seq<seq<Byte>>

    ghost predicate Valid()
      reads this
    {
      lineBuf.Length == MAX_PACKET_LENGTH && lineBufIndex <= MAX_PACKET_LENGTH - 1
    }

    ghost function View(): Server
      requires Valid()
      reads this, lineBuf
    {
      Server(state, lineBuf[..lineBufIndex], lineSum, lineCsum, lastPacket, running, report, output, packets)
    }

    constructor (report: Option<seq<Byte>>)
      ensures Valid() && fresh(lineBuf)
      ensures View() == Server(Idle, [], 0, 0, [], false, report, [], [])
    {
      lineBuf := new Byte[MAX_PACKET_LENGTH](_ => 0);
      state, lineBufIndex, lineSum, lineCsum, running := Idle, 0, 0, 0, false;
      lastPacket, output, packets := [], [], [];
      this.report := report;
    }

    /** One received byte, whatever the connection has seen before. */
    method ReadByte(ch: Byte)
      requires Valid()
      modifies this, lineBuf
      ensures Valid() && View() == GdbPacket.ReadByte(old(View()), ch)
    {
      if |lastPacket| > 0 {
        if ch == MINUS {
          output := output + lastPacket;
        }
        if ch == PLUS || ch == DOLLAR {
          lastPacket := [];
        }
        if ch != DOLLAR {
          return;
        }
      }
      if running {
        running := false;
        if report.Some? {
          PutPacketBinary(report.value);
        }
        return;
      }
      match state {
        case Idle =>
          if ch == DOLLAR {
            lineBufIndex, lineSum, state := 0, 0, GetLine;
          }
        case GetLine => ReadLine(ch);
        case GetLineEsc => ReadEscaped(ch);
        case GetLineRle => ReadRepeat(ch);
        case Chksum1 => ReadChecksum1(ch);
        case Chksum2 => ReadChecksum2(ch);
      }
    }

    method ReadLine(ch: Byte)
      requires Valid()
      modifies this, lineBuf
      ensures Valid() && View() == ParseLine(old(View()), ch)
    {
      if ch == BRACE {
        state, lineSum := GetLineEsc, lineSum + ch;
      } else if ch == STAR {
        state, lineSum := GetLineRle, lineSum + ch;
      } else if ch == HASH {
        state := Chksum1;
      } else if lineBufIndex >= lineBuf.Length - 1 {
        state := Idle;
      } else {
        lineBuf[lineBufIndex] := ch;
        lineBufIndex, lineSum := lineBufIndex + 1, lineSum + ch;
      }
    }

    method ReadEscaped(ch: Byte)
      requires Valid()
      modifies this, lineBuf
      ensures Valid() && View() == ParseEsc(old(View()), ch)
    {
      if ch == HASH {
        state := Chksum1;
      } else if lineBufIndex >= lineBuf.Length - 1 {
        state := Idle;
      } else {
        lineBuf[lineBufIndex] := Flip(ch);
        lineBufIndex, lineSum, state := lineBufIndex + 1, lineSum + ch, GetLine;
      }
    }

    method ReadRepeat(ch: Byte)
      requires Valid()
      modifies this, lineBuf
      ensures Valid() && View() == ParseRle(old(View()), ch)
    {
      if ch < SPACE || ch == HASH || ch == DOLLAR || ch > 126 {
        state := GetLine;
        return;
      }
      var repeat := ch - SPACE + 3;
      if lineBufIndex + repeat >= lineBuf.Length - 1 {
        state := Idle;
      } else if lineBufIndex < 1 {
        state := GetLine;
      } else {
        var last, end := lineBuf[lineBufIndex - 1], lineBufIndex + repeat;
        for i := lineBufIndex to end
          invariant lineBuf[..lineBufIndex] == old(lineBuf[..lineBufIndex])
          invariant forall a {:trigger lineBuf[a]} | lineBufIndex <= a < i :: lineBuf[a] == last
          modifies lineBuf
        {
          lineBuf[i] := last;
        }
        assert lineBuf[..end] == old(lineBuf[..lineBufIndex]) + Repeat(last, repeat);
        lineBufIndex, lineSum, state := lineBufIndex + repeat, lineSum + ch, GetLine;
      }
    }

    method ReadChecksum1(ch: Byte)
      requires Valid()
      modifies this, lineBuf
      ensures Valid() && View() == ParseChksum1(old(View()), ch)
    {
      if !IsHexDigit(ch) {
        state := GetLine;
        return;
      }
      lineBuf[lineBufIndex] := 0;
      lineCsum, state := FromHex(ch) * 16, Chksum2;
    }

    method ReadChecksum2(ch: Byte)
      requires Valid()
      modifies this
      ensures Valid() && View() == ParseChksum2(old(View()), ch)
    {
      if !IsHexDigit(ch) {
        state := GetLine;
        return;
      }
      lineCsum := lineCsum + FromHex(ch);
      state := Idle;
      if lineCsum != lineSum % 256 {
        output := output + [MINUS];
      } else {
        output := output + [PLUS];
        packets := packets + [lineBuf[..lineBufIndex]];
      }
    }

    /** The checksum the server computes from signed characters is the one the
        receiver computes from unsigned ones. */
    method PutPacketBinary(buf: seq<Byte>)
      requires Valid()
      modifies this
      ensures Valid() && View() == PutPacket(old(View()), buf)
    {
      hide ToHex, Frame;
      var csum := 0;
      for i := 0 to |buf|
        invariant csum == SignedSum(buf[..i])
      {
        assert buf[..i + 1][..i] == buf[..i];
        csum := csum + Signed(buf[i]);
      }
      assert buf[..|buf|] == buf;
      SignedFrame(buf);
      lastPacket := [DOLLAR] + buf + [HASH, ToHex(csum / 16 % 16), ToHex(csum % 16)];
      output := output + lastPacket;
    }
  }

  lemma EscapeNext(mem: seq<Byte>, i: nat)
    requires i < |mem|
    ensures Escape(mem[..i + 1]) == Escape(mem[..i]) + EscapeByte(mem[i])
  {
    assert mem[..i + 1] == mem[..i] + [mem[i]];
    EscapeAppend(mem[..i], [mem[i]]);
    assert [mem[i]][1..] == [];
    assert Escape([mem[i]]) == EscapeByte(mem[i]) + Escape([]);
  }

  /** Binary data as the body of a packet. */
  method MemToX(mem: seq<Byte>) returns (buf: seq<Byte>)
    ensures buf == Escape(mem)
  {
    buf := [];
    for i := 0 to |mem|
      invariant buf == Escape(mem[..i])
    {
      EscapeNext(mem, i);
      if mem[i] == HASH || mem[i] == DOLLAR || mem[i] == STAR || mem[i] == BRACE {
        buf := buf + [BRACE] + [Flip(mem[i])];
      } else {
        buf := buf + [mem[i]];
      }
    }
    assert mem[..|mem|] == mem;
  }
}
