/** The instruction counter as a clock: budgets handed to a virtual CPU, what it
    has executed, and the virtual time derived from it. */
module Icount {
  import opened Helpers

  const MAX_ICOUNT_SHIFT: nat := 10
  const ICOUNT_WOBBLE: int := 100_000_000
  const INT32_MAX: int := 0x7fff_ffff
  const LOW_MAX: int := 0xffff
  const NO_WARP: int := -1

  function Pow2(n: nat): (r: nat)
    ensures r > 0
  {
    if n == 0 then 1 else 2 * Pow2(n - 1)
  }

  lemma DivBounds(x: int, d: int)
    requires d > 0
    ensures x / d * d <= x < x / d * d + d
  {
    assert x == d * (x / d) + x % d;
    assert d * (x / d) == x / d * d;
  }

  /** Nanoseconds to instructions, rounded up: the fewest that last that long. */
  function Round(count: int, shift: nat): (r: int)
    ensures count <= r * Pow2(shift) < count + Pow2(shift)
  {
    DivBounds(count + Pow2(shift) - 1, Pow2(shift));
    (count + Pow2(shift) - 1) / Pow2(shift)
  }

  /** No smaller number of instructions lasts that long. */
  lemma RoundLeast(count: int, shift: nat, n: int)
    requires n * Pow2(shift) >= count
    ensures n >= Round(count, shift)
  {
    var r, p := Round(count, shift), Pow2(shift);
    assert (r - 1) * p == r * p - p;
    if n < r {
      MulMono(n, r - 1, p);
    }
  }

  lemma RoundRange(count: int, shift: nat)
    requires 0 <= count
    ensures 0 <= Round(count, shift) <= count
  {
    var r, p := Round(count, shift), Pow2(shift);
    if r < 0 { MulMono(r, -1, p); }
    MulMono(1, p, count);
    RoundLeast(count, shift, count);
  }

  lemma RunAdvances(bias: int, from: int, to: int, whole: int, shift: nat, limit: int)
    requires from <= to <= from + whole && limit <= whole * Pow2(shift) < limit + Pow2(shift)
    ensures bias + from * Pow2(shift) <= bias + to * Pow2(shift) < bias + from * Pow2(shift) + limit + Pow2(shift)
    ensures to == from + whole ==> bias + to * Pow2(shift) >= bias + from * Pow2(shift) + limit
  {
    var p := Pow2(shift);
    MulMono(from, to, p);
    MulMono(to, from + whole, p);
    assert (from + whole) * p == from * p + whole * p;
  }

  /** How long the CPU may run: until the next timer, at most INT32_MAX nanoseconds. */
  function Limit(deadline: int): (r: int)
    ensures r == if 0 <= deadline <= 0x7fff_ffff then deadline else 0x7fff_ffff
  {
    if deadline < 0 || deadline > INT32_MAX then INT32_MAX else deadline
  }

  /** The rule of the adjustment: at most one step, and only against a growing drift. */
  function Adjusted(shift: nat, lastDelta: int, delta: int): (r: nat)
    requires shift <= MAX_ICOUNT_SHIFT
    ensures r <= MAX_ICOUNT_SHIFT
    ensures r == shift - 1 <==> delta > 0 && 2 * delta - lastDelta > 100_000_000 && shift > 0
    ensures r == shift + 1 <==> delta < 0 && lastDelta - 2 * delta > 100_000_000 && shift < 10
    ensures r == shift - 1 || r == shift || r == shift + 1
  {
    if delta > 0 && lastDelta + ICOUNT_WOBBLE < delta * 2 && shift > 0 then shift - 1
    else if delta < 0 && lastDelta - ICOUNT_WOBBLE > delta * 2 && shift < MAX_ICOUNT_SHIFT then shift + 1
    else shift
  }

  /** A stretch of a run: a translation block, and whether the guest reads the clock
      after it. */
  datatype Stretch = Stretch(insns: nat, readsClock: bool)

  /** Who reads the clock: the running CPU, which must be allowed to do I/O, or
      anyone else, for whom instructions not accounted for do not exist. */
  datatype Reader = RunningCpu(canDoIo: bool) | Elsewhere

  predicate MayRead(who: Reader)
  {
    who.RunningCpu? ==> who.canDoIo
  }

  /** Readings that never go back, from `from` to `to`. */
  ghost predicate Ascending(from: int, times: seq<int>, to: int)
  {
    && from <= to
    && (forall i {:trigger times[i]} | 0 <= i < |times| :: from <= times[i] <= to)
    && (forall i, j {:trigger times[i], times[j]} | 0 <= i < j < |times| :: times[i] <= times[j])
  }

  /** The two counters after a stretch: its instructions come off the low counter; if
      they do not fit, the counter is refilled, and the end of a budget is executed
      as far as it goes. */
  function Spend(low: int, extra: int, s: Stretch): (int, int)
  {
    if s.insns <= low then (low - s.insns, extra)
    else
      var left := low + extra;
      var l := Min(LOW_MAX, left);
      if left == l then (l - Min(s.insns, l), 0) else (l, left - l)
  }

  /** The counters after a run with the given budget. */
  function SpendFrom(whole: int, s: seq<Stretch>): (int, int)
  {
    if s == [] then (Min(LOW_MAX, whole), whole - Min(LOW_MAX, whole))
    else
      var before := SpendFrom(whole, s[..|s| - 1]);
      Spend(before.0, before.1, s[|s| - 1])
  }

  /** How many instructions a run with the given budget executes. */
  function Run(whole: int, s: seq<Stretch>): int
  {
    whole - SpendFrom(whole, s).0 - SpendFrom(whole, s).1
  }

  function Reads(s: seq<Stretch>): nat
  {
    if s == [] then 0 else Reads(s[..|s| - 1]) + if s[|s| - 1].readsClock then 1 else 0
  }

  lemma SpendNext(whole: int, s: seq<Stretch>, i: nat)
    requires i < |s|
    ensures var before := SpendFrom(whole, s[..i]);
      SpendFrom(whole, s[..i + 1]) == Spend(before.0, before.1, s[i])
    ensures Reads(s[..i + 1]) == Reads(s[..i]) + if s[i].readsClock then 1 else 0
  {
    assert s[..i + 1][..i] == s[..i];
  }

  ghost predicate Counters(c: (int, int))
  {
    0 <= c.0 <= LOW_MAX && 0 <= c.1
  }

  /** Of two blocks in a row at least one executes something, if there is anything left:
      a counter that was refilled covers the next block. */
  lemma SpendTwo(low: int, extra: int, a: Stretch, b: Stretch)
    requires Counters((low, extra)) && 0 < a.insns <= LOW_MAX && 0 < b.insns <= LOW_MAX
    ensures var c := Spend(low, extra, a);
      var d := Spend(c.0, c.1, b);
      Counters(c) && Counters(d) && c.0 + c.1 <= low + extra && d.0 + d.1 <= c.0 + c.1
      && (low + extra > 0 ==> d.0 + d.1 < low + extra)
  {
  }

  /** A run uses up its budget if it has enough blocks to do so, however long they are. */
  lemma {:induction false} RunExhausts(whole: nat, s: seq<Stretch>)
    requires |s| >= 2 * whole && forall i {:trigger s[i]} | 0 <= i < |s| :: 0 < s[i].insns <= LOW_MAX
    ensures Run(whole, s) == whole
  {
    LeftAfter(whole, s, |s|);
    assert s[..|s|] == s;
  }

  lemma {:induction false} LeftAfter(whole: nat, s: seq<Stretch>, n: nat)
    requires n <= |s| && forall i {:trigger s[i]} | 0 <= i < |s| :: 0 < s[i].insns <= LOW_MAX
    ensures var c := SpendFrom(whole, s[..n]);
      Counters(c) && c.0 + c.1 <= whole && (c.0 + c.1 > 0 ==> c.0 + c.1 <= whole - n / 2)
    decreases n
  {
    if n == 1 {
      SpendNext(whole, s, 0);
      assert s[..0] == [];
      var c := SpendFrom(whole, s[..0]);
      SpendTwo(c.0, c.1, s[0], s[0]);
    } else if n >= 2 {
      LeftAfter(whole, s, n - 2);
      SpendNext(whole, s, n - 2);
      SpendNext(whole, s, n - 1);
      var c := SpendFrom(whole, s[..n - 2]);
      SpendTwo(c.0, c.1, s[n - 2], s[n - 1]);
    } else {
      assert s[..0] == [];
    }
  }

  class IcountState {
    var qemuIcount: int
    var bias: int
    var shift: nat
    var lastDelta: int
    var warpStart: int
    var warpTimer: Option<int>
    var budget: int
    var low: int
    var extra: int

    /** Instructions the CPU has really executed. */
    ghost var retired: int

    ghost predicate Valid()
      reads this
    {
      && shift <= MAX_ICOUNT_SHIFT
      && 0 <= low <= LOW_MAX && 0 <= extra && low + extra <= budget
      && qemuIcount + (budget - (low + extra)) == retired
    }

    predicate Idle()
      reads this
    {
      budget == 0 && low == 0 && extra == 0
    }

    /** What the virtual clock shows. */
    ghost function Reading(): int
      reads this
    {
      bias + qemuIcount * Pow2(shift)
    }

    /** With a fixed shift the start of idle time is left at zero, not at "none". */
    constructor (adaptive: bool, fixedShift: nat)
      requires fixedShift <= MAX_ICOUNT_SHIFT
      ensures Valid() && Idle() && bias == 0 && qemuIcount == 0 && retired == 0 && lastDelta == 0
      ensures Reading() == 0 && warpTimer == None
      ensures shift == (if adaptive then 3 else fixedShift) && warpStart == (if adaptive then NO_WARP else 0)
    {
      shift := if adaptive then 3 else fixedShift;
      warpStart, warpTimer := if adaptive then NO_WARP else 0, None;
      qemuIcount, bias, lastDelta, budget, low, extra, retired := 0, 0, 0, 0, 0, 0, 0;
    }

    /** The whole budget is split over the two counters; when it is used up the
        deadline is reached and passed by less than one instruction's time. */
    method PrepareForRun(deadline: int)
      requires Valid() && Idle()
      modifies `budget, `low, `extra
      ensures Valid() && budget == low + extra == Round(Limit(deadline), shift) && low == Min(LOW_MAX, budget)
      ensures Reading() == old(Reading())
      ensures Limit(deadline) <= budget * Pow2(shift) < Limit(deadline) + Pow2(shift)
    {
      RoundRange(Limit(deadline), shift);
      budget := Round(Limit(deadline), shift);
      var insnsLeft := Min(LOW_MAX, budget);
      low := insnsLeft;
      extra := budget - insnsLeft;
    }

    /** The CPU executes a translation block of `n` instructions, which the low counter covers. */
    method Execute(n: nat)
      requires Valid() && n <= low
      modifies `low, `retired
      ensures Valid() && low == old(low) - n && retired == old(retired) + n
    {
      low := low - n;
      retired := retired + n;
    }

    method UpdateIcount()
      requires Valid()
      modifies `budget, `qemuIcount
      ensures Valid() && qemuIcount == retired && budget == low + extra
      ensures Reading() == old(Reading()) + (retired - old(qemuIcount)) * Pow2(shift)
      ensures Reading() >= old(Reading())
    {
      var executed := budget - (low + extra);
      budget := budget - executed;
      qemuIcount := qemuIcount + executed;
      MulMono(0, executed, Pow2(shift));
      assert qemuIcount * Pow2(shift) == old(qemuIcount) * Pow2(shift) + executed * Pow2(shift);
    }

    /** Reading the clock.  Only the running CPU accounts for what it has executed
        first, and only if it may do I/O; otherwise the source gives up. */
    method GetIcount(who: Reader) returns (r: Option<int>)
      requires Valid()
      modifies `budget, `qemuIcount
      ensures Valid() && (r.Some? <==> MayRead(who))
      ensures r.Some? ==> r.value == Reading()
      ensures if who == RunningCpu(true)
              then qemuIcount == retired && Reading() == old(Reading()) + (retired - old(qemuIcount)) * Pow2(shift)
              else qemuIcount == old(qemuIcount) && Reading() == old(Reading())
      ensures Reading() >= old(Reading()) && budget <= old(budget)
    {
      if who.RunningCpu? {
        if !who.canDoIo {
          return None;
        }
        UpdateIcount();
      }
      r := Some(bias + qemuIcount * Pow2(shift));
    }

    /** The low counter has run out: nothing is lost or gained by refilling it. */
    method Refill() returns (remaining: int)
      requires Valid()
      modifies `budget, `qemuIcount, `low, `extra
      ensures Valid() && qemuIcount == retired
      ensures budget == low + extra == old(low) + old(extra)
      ensures low == Min(LOW_MAX, budget) && remaining == (if extra == 0 then low else 0)
      ensures Reading() >= old(Reading())
    {
      UpdateIcount();
      var insnsLeft := Min(LOW_MAX, budget);
      low := insnsLeft;
      extra := budget - insnsLeft;
      remaining := if extra == 0 then insnsLeft else 0;
    }

    /** After a run the count is exact and the counters are clear again. */
    method ProcessIcountData()
      requires Valid()
      modifies `budget, `qemuIcount, `low, `extra
      ensures Valid() && Idle() && qemuIcount == retired
      ensures Reading() == old(Reading()) + (retired - old(qemuIcount)) * Pow2(shift)
      ensures Reading() >= old(Reading())
    {
      UpdateIcount();
      low, extra, budget := 0, 0, 0;
    }

    /** A translation block, or a refill instead of it. */
    method ExecBlock(s: Stretch)
      requires Valid()
      modifies `budget, `qemuIcount, `low, `extra, `retired
      ensures Valid() && (low, extra) == Spend(old(low), old(extra), s)
      ensures retired + low + extra == old(retired) + old(low) + old(extra) && retired >= old(retired)
      ensures qemuIcount >= old(qemuIcount) && Reading() >= old(Reading())
      ensures s.insns <= old(low) ==> retired == old(retired) + s.insns
      ensures s.insns > old(low) && old(low) + old(extra) > 0xffff ==> retired == old(retired)
      ensures s.insns > old(low) && old(low) + old(extra) <= 0xffff ==>
        retired == old(retired) + Min(s.insns, old(low) + old(extra))
    {
      if s.insns <= low {
        Execute(s.insns);
      } else {
        var remaining := Refill();
        if remaining > 0 {
          Execute(Min(s.insns, remaining));
        }
      }
    }

    /** One run of the CPU over translation blocks of the given sizes, with clock
        reads in between.  What it executes and what is left always add up to the
        budget, so the clock advances past the deadline by less than one
        instruction, and reaches it when the budget is used up. */
    method CpuExec(deadline: int, stretches: seq<Stretch>) returns (exhausted: bool, times: seq<int>)
      requires Valid() && Idle()
      modifies `budget, `qemuIcount, `low, `extra, `retired
      ensures Valid() && Idle() && qemuIcount == retired == old(retired) + Run(Round(Limit(deadline), shift), stretches)
      ensures old(Reading()) <= Reading() < old(Reading()) + Limit(deadline) + Pow2(shift)
      ensures exhausted <==> retired - old(retired) == Round(Limit(deadline), shift)
      ensures exhausted ==> Reading() >= old(Reading()) + Limit(deadline)
      ensures Ascending(old(Reading()), times, Reading()) && |times| == Reads(stretches)
    {
      PrepareForRun(deadline);
      ghost var whole := budget;
      hide Spend, Round, Limit, Pow2;
      times := [];
      for i := 0 to |stretches|
        invariant Valid() && Ascending(old(Reading()), times, Reading())
        invariant retired - old(retired) + low + extra == whole && retired >= old(retired)
        invariant |times| == Reads(stretches[..i]) && (low, extra) == SpendFrom(whole, stretches[..i])
      {
        SpendNext(whole, stretches, i);
        ExecBlock(stretches[i]);
        if stretches[i].readsClock {
          var time := GetIcount(RunningCpu(true));
          times := times + [time.value];
        }
      }
      assert stretches[..|stretches|] == stretches;
      exhausted := low + extra == 0;
      ProcessIcountData();
      RunAdvances(old(bias), old(qemuIcount), retired, whole, shift, Limit(deadline));
    }

    /** While the machine runs, the length of an instruction is adjusted by at most a
        factor of two, within its limits, and the clock shows the same time before and after.  Called from
        elsewhere than the running CPU, it leaves what has not been accounted for to
        be counted with the new length. */
    method Adjust(curTime: int, running: bool, who: Reader) returns (ok: bool)
      requires Valid()
      modifies `budget, `qemuIcount, `shift, `bias, `lastDelta
      ensures Valid() && (ok <==> !running || MayRead(who))
      ensures !ok || !running ==> shift == old(shift) && bias == old(bias) && lastDelta == old(lastDelta)
      ensures if running && who == RunningCpu(true)
              then qemuIcount == retired && Reading() == old(Reading()) + (retired - old(qemuIcount)) * Pow2(old(shift))
              else qemuIcount == old(qemuIcount) && Reading() == old(Reading())
      ensures Reading() >= old(Reading())
      ensures ok && running ==>
        && lastDelta == Reading() - curTime && shift == Adjusted(old(shift), old(lastDelta), lastDelta)
        && (shift == old(shift) - 1 <==>
              lastDelta > 0 && 2 * lastDelta - old(lastDelta) > 100_000_000 && old(shift) > 0)
        && (shift == old(shift) + 1 <==>
              lastDelta < 0 && old(lastDelta) - 2 * lastDelta > 100_000_000 && old(shift) < 10)
        && (shift == old(shift) - 1 || shift == old(shift) || shift == old(shift) + 1)
    {
      if !running {
        return true;
      }
      var time := GetIcount(who);
      if time.None? {
        return false;
      }
      ok := true;
      var curIcount := time.value;
      var delta := curIcount - curTime;
      if delta > 0 && lastDelta + ICOUNT_WOBBLE < delta * 2 && shift > 0 {
        shift := shift - 1;
      }
      if delta < 0 && lastDelta - ICOUNT_WOBBLE > delta * 2 && shift < MAX_ICOUNT_SHIFT {
        shift := shift + 1;
      }
      lastDelta := delta;
      bias := curIcount - qemuIcount * Pow2(shift);
    }

    /** If the machine runs and all its CPUs have gone idle, the clock jumps to the next
        timer, or, with sleep, the start of the idle time is noted, unless an earlier one
        is, and a timer is set to end it, unless it is to end earlier already.  A timer
        of the clock that has come due is notified. */
    method StartWarp(clock: int, deadline: int, sleep: bool, idle: bool) returns (notify: bool)
      requires Valid()
      modifies `bias, `warpStart, `warpTimer
      ensures Valid()
      ensures notify <==> idle && (deadline == 0 || (deadline > 0 && !sleep))
      ensures warpTimer ==
        if idle && deadline > 0 && sleep && (old(warpTimer).None? || old(warpTimer).value > clock + deadline)
        then Some(clock + deadline) else old(warpTimer)
      ensures warpStart ==
        if idle && deadline > 0 && sleep && (old(warpStart) == NO_WARP || old(warpStart) > clock) then clock
        else old(warpStart)
      ensures Reading() == old(Reading()) + if idle && deadline > 0 && !sleep then deadline else 0
    {
      notify := false;
      if idle && deadline > 0 {
        if !sleep {
          bias := bias + deadline;
          notify := true;
        } else {
          if warpStart == NO_WARP || warpStart > clock {
            warpStart := clock;
          }
          if warpTimer.None? || warpTimer.value > clock + deadline {
            warpTimer := Some(clock + deadline);
          }
        }
      } else if idle && deadline == 0 {
        notify := true;
      }
    }

    /** Idle time is added to the clock.  In adaptive mode the clock is not to end up
        ahead of real time, so it goes back exactly when it was ahead before, or when
        real time did.  The timer that ends idle time has fired or is deleted. */
    method Warp(clock: int, adaptive: bool, running: bool, who: Reader) returns (ok: bool)
      requires Valid()
      modifies `bias, `warpStart, `warpTimer, `budget, `qemuIcount
      ensures Valid() && warpTimer == None
      ensures ok <==> old(warpStart) == NO_WARP || !running || !adaptive || MayRead(who)
      ensures ok ==> warpStart == NO_WARP
      ensures !ok || old(warpStart) == NO_WARP || !running ==> Reading() == old(Reading())
      ensures ok && old(warpStart) != NO_WARP && running && !adaptive ==>
        Reading() == old(Reading()) + (clock - old(warpStart))
      ensures ok && old(warpStart) != NO_WARP && running && adaptive ==>
        && Reading() == Min(Shown(who) + (clock - old(warpStart)), clock)
        && (Reading() < Shown(who) <==> Shown(who) > clock || clock < old(warpStart))
    {
      warpTimer := None;
      if warpStart == NO_WARP {
        return true;
      }
      if running {
        var warpDelta := clock - warpStart;
        if adaptive {
          var time := GetIcount(who);
          if time.None? {
            return false;
          }
          warpDelta := Min(warpDelta, clock - time.value);
        }
        bias := bias + warpDelta;
      }
      warpStart := NO_WARP;
      ok := true;
    }

    /** What the reader saw on the clock when the call began. */
    twostate function Shown(who: Reader): int
      reads this
    {
      old(bias) + (if who.RunningCpu? then retired else old(qemuIcount)) * Pow2(old(shift))
    }
  }

  /** From where idle time that begins at `t0` is counted: an earlier start counts. */
  function Noted(warpStart: int, t0: int): int
  {
    if warpStart == NO_WARP then t0 else Min(t0, warpStart)
  }

  /** CPUs that go idle at `t0` with a fixed shift, and are accounted for at `t1`: the
      clock advances by the idle time if and only if no earlier start was noted. */
  method Sleep(s: IcountState, t0: int, t1: int, deadline: int)
    requires s.Valid() && 0 <= t0 <= t1 && deadline > 0
    modifies s
    ensures s.Valid() && s.warpStart == NO_WARP && s.retired == old(s.retired)
    ensures s.Reading() - old(s.Reading()) == t1 - Noted(old(s.warpStart), t0)
    ensures s.Reading() - old(s.Reading()) == t1 - t0 <==> old(s.warpStart) == NO_WARP || old(s.warpStart) >= t0
  {
    var notify := s.StartWarp(t0, deadline, true, true);
    var ok := s.Warp(t1, false, true, Elsewhere);
  }

  /** The same in adaptive mode: the clock goes back if and only if it was ahead of
      real time at the end. */
  method SleepAdaptive(s: IcountState, t0: int, t1: int, deadline: int)
    requires s.Valid() && 0 <= t0 <= t1 && deadline > 0
    modifies s
    ensures s.Valid() && s.warpStart == NO_WARP && s.retired == old(s.retired)
    ensures s.Reading() == Min(old(s.Reading()) + (t1 - Noted(old(s.warpStart), t0)), t1)
    ensures s.Reading() < old(s.Reading()) <==> old(s.Reading()) > t1
  {
    var notify := s.StartWarp(t0, deadline, true, true);
    assert s.Reading() == old(s.Reading());
    label asleep:
    var ok := s.Warp(t1, true, true, Elsewhere);
    assert s.Shown@asleep(Elsewhere) == old(s.Reading());
  }

  /** The start of idle time begins as 0 with a fixed shift, so the first sleep
      counts from the beginning of real time, and later ones from their own. */
  method FirstSleep(shift: nat, t0: int, t1: int, t2: int, t3: int) returns (s: IcountState, first: int, second: int)
    requires shift <= MAX_ICOUNT_SHIFT && 0 <= t0 <= t1 <= t2 <= t3
    ensures fresh(s) && s.retired == 0 && first == t1 && second == t3 - t2
    ensures first == t1 - t0 <==> t0 == 0
  {
    s := new IcountState(false, shift);
    Sleep(s, t0, t1, 1);
    var time := s.GetIcount(Elsewhere);
    first := time.value;
    Sleep(s, t2, t3, 1);
    time := s.GetIcount(Elsewhere);
    second := time.value - first;
  }

  /** In adaptive mode the clock starts at 8 nanoseconds an instruction; with the next
      timer in 100, a first run executes 13 of them. */
  method NewRun() returns (s: IcountState)
    ensures fresh(s) && s.Valid() && s.warpStart == NO_WARP && s.Reading() == 104
  {
    hide Run, Round, Limit, Pow2, Reads, Ascending;
    s := new IcountState(true, 0);
    var exhausted, times := s.CpuExec(100, [Stretch(13, false)]);
    RunsAll();
    ReadingIs(s);
  }

  lemma ReadingIs(s: IcountState)
    requires s.bias == 0 && s.qemuIcount == 13 && s.shift == 3
    ensures s.Reading() == 104
  {
    RunsAll();
  }

  /** With idle time from the real time 10 to 20, the clock goes back. */
  method ClockGoesBack() returns (s: IcountState, before: int, after: int)
    ensures fresh(s) && before == 104 && after == 20
  {
    s := NewRun();
    hide IcountState.Reading;
    var time := s.GetIcount(Elsewhere);
    before := time.value;
    SleepAdaptive(s, 10, 20, 1);
    time := s.GetIcount(Elsewhere);
    after := time.value;
  }

  lemma RunsAll()
    ensures Pow2(3) == 8 && Round(Limit(100), 3) == 13 && Run(13, [Stretch(13, false)]) == 13
  {
    assert Pow2(3) == 2 * Pow2(2) && Pow2(2) == 2 * Pow2(1);
    assert [Stretch(13, false)][..0] == [];
  }
}
