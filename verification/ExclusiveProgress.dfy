/** Progress of the exclusive sections: whatever was begun ends, however the threads
    are scheduled, and a thread gets into its section and a CPU to its guest code. */
module ExclusiveProgress {
  import opened Helpers
  import opened ExclusiveSections

  // ---- Every call ends ---------------------------------------------------------

  /** An upper bound on the steps of a thread inside cpu_exec_start, guest code and
      cpu_exec_end.  A thread that looks at a counter that is not 0 goes to sleep first. */
  function ExecRank(pc: Pc, pending: int): nat
  {
    match pc
    case StartReadPending => 16
    case StartLock => 15
    case StartCheckWaiter => 14
    case StartIdle => if pending == 0 then 10 else 13
    case StartIdleAsleep => 12
    case StartIdleWoken => if pending == 0 then 11 else 14
    case StartSetRunning => 9
    case StartUnlock => 8
    case Executing => 7
    case EndReadPending => 6
    case EndLock => 5
    case EndCheckWaiter => 4
    case EndDecrement => 3
    case EndSignal => 2
    case EndUnlock => 1
    case _ => 0
  }

  /** The same from the scan over `n` CPUs to the end of end_exclusive. */
  function OwnerRank(pc: Pc, pending: int, n: nat): nat
  {
    match pc
    case ExclScan(o, _) => 13 + if o < n then n - o else 0
    case ExclPublish(_) => 12
    case ExclWait => if pending <= 1 then 8 else 11
    case ExclWaitAsleep => 10
    case ExclWaitWoken => if pending <= 1 then 9 else 12
    case ExclUnlock => 7
    case ExclEnter => 6
    case InExclusive => 5
    case FinishLock => 4
    case FinishClear => 3
    case FinishBroadcast => 2
    case FinishUnlock => 1
    case _ => 0
  }

  /** Making the counter 1 sends others to sleep again, which is paid for in advance. */
  function Rank(pc: Pc, pending: int, n: nat): nat
  {
    match pc
    case ExclAnnounce => 4 * n + 14
    case ExclIdle => 4 * n + if pending == 0 then 15 else 18
    case ExclIdleAsleep => 4 * n + 17
    case ExclIdleWoken => 4 * n + if pending == 0 then 16 else 19
    case ExclLock => 4 * n + 20
    case _ => ExecRank(pc, pending) + OwnerRank(pc, pending, n)
  }

  /** What the first `m` threads have left to do if nobody calls anything any more. */
  function Load(s: State, m: nat): nat
    requires m <= |s.pc|
  {
    if m == 0 then 0 else Load(s, m - 1) + Rank(s.pc[m - 1], s.pending, |s.pc|)
  }

  function Work(s: State): nat
  {
    Load(s, |s.pc|)
  }

  /** How much more another thread may have to do after a step of `c`. */
  function Rise(pc: Pc): nat
  {
    if pc.ExclAnnounce? then 3 else 0
  }

  ghost predicate OwnLowered(s: State, c: Cpu, s': State)
    requires c < |s.pc| == |s'.pc|
  {
    Rank(s'.pc[c], s'.pending, |s.pc|) + (if s.pc[c].ExclAnnounce? then 3 * |s.pc| else 0)
      < Rank(s.pc[c], s.pending, |s.pc|)
  }

  ghost predicate OtherLowered(s: State, c: Cpu, s': State, u: Cpu)
    requires c < |s.pc| == |s'.pc| && u < |s.pc|
  {
    Rank(s'.pc[u], s'.pending, |s.pc|) <= Rank(s.pc[u], s.pending, |s.pc|) + Rise(s.pc[c])
  }

  lemma ExecStartLowers(s: State, c: Cpu, s': State, owner: Option<Cpu>, u: Cpu)
    requires c < |s.pc| && ExecStartStep(s, c, s') && Ready(s, c, owner) && !s.pc[c].Outside? && !Asleep(s.pc[c])
    requires u < |s.pc|
    ensures |s'.pc| == |s.pc| && OwnLowered(s, c, s') && (u != c ==> OtherLowered(s, c, s', u))
  {
  }

  lemma ExecEndLowers(s: State, c: Cpu, s': State, owner: Option<Cpu>, u: Cpu)
    requires c < |s.pc| && ExecEndStep(s, c, s') && Ready(s, c, owner)
    requires u < |s.pc|
    ensures |s'.pc| == |s.pc| && OwnLowered(s, c, s') && (u != c ==> OtherLowered(s, c, s', u))
  {
  }

  lemma ExclusiveStartLowers(s: State, c: Cpu, s': State, owner: Option<Cpu>, u: Cpu)
    requires c < |s.pc| && ExclusiveStartStep(s, c, s') && Ready(s, c, owner)
    requires !s.pc[c].Outside? && !Asleep(s.pc[c]) && u < |s.pc|
    ensures |s'.pc| == |s.pc| && OwnLowered(s, c, s') && (u != c ==> OtherLowered(s, c, s', u))
  {
  }

  lemma ExclusiveLowers(s: State, c: Cpu, s': State, owner: Option<Cpu>, u: Cpu)
    requires c < |s.pc| && ExclusiveStep(s, c, s') && Ready(s, c, owner) && !Asleep(s.pc[c])
    requires u < |s.pc| && FlagInv(s, u, owner)
    ensures |s'.pc| == |s.pc| && OwnLowered(s, c, s') && (u != c ==> OtherLowered(s, c, s', u))
  {
    hide OtherLowered, OwnLowered;
    ExclusiveOwnLowers(s, c, s', owner);
    if u != c { ExclusiveOtherLowers(s, c, s', owner, u); }
  }

  lemma ExclusiveOwnLowers(s: State, c: Cpu, s': State, owner: Option<Cpu>)
    requires c < |s.pc| && ExclusiveStep(s, c, s') && Ready(s, c, owner) && !Asleep(s.pc[c])
    ensures |s'.pc| == |s.pc| && OwnLowered(s, c, s')
  {
  }

  lemma ExclusiveOtherLowers(s: State, c: Cpu, s': State, owner: Option<Cpu>, u: Cpu)
    requires c < |s.pc| && ExclusiveStep(s, c, s') && Ready(s, c, owner)
    requires u < |s.pc| && u != c && FlagInv(s, u, owner)
    ensures |s'.pc| == |s.pc| && OtherLowered(s, c, s', u)
  {
  }

  /** A step inside a call brings the thread closer to its end, and sends others back
      only where the counter becomes 1. */
  lemma ThreadLowers(s: State, c: Cpu, s': State, owner: Option<Cpu>, u: Cpu)
    requires InvOwner(s, owner) && Step(s, c, s') && !s.pc[c].Outside? && !Asleep(s.pc[c]) && u < |s.pc|
    ensures |s'.pc| == |s.pc| && OwnLowered(s, c, s') && (u != c ==> OtherLowered(s, c, s', u))
  {
    hide ExecStartStep, ExecEndStep, ExclusiveStartStep, ExclusiveStep, Rank;
    InvReady(s, c, owner);
    assert FlagInv(s, u, owner);
    if ExecStartStep(s, c, s') { ExecStartLowers(s, c, s', owner, u); }
    else if ExecEndStep(s, c, s') { ExecEndLowers(s, c, s', owner, u); }
    else if ExclusiveStartStep(s, c, s') { ExclusiveStartLowers(s, c, s', owner, u); }
    else { ExclusiveLowers(s, c, s', owner, u); }
  }

  lemma {:induction false} LoadLowers(s: State, c: Cpu, s': State, m: nat)
    requires c < |s.pc| == |s'.pc| && m <= |s.pc| && OwnLowered(s, c, s')
    requires forall u | 0 <= u < |s.pc| && u != c :: OtherLowered(s, c, s', u)
    ensures var rise := if s.pc[c].ExclAnnounce? then 3 else 0;
      if c < m then Load(s', m) + rise * (|s.pc| - m) < Load(s, m) else Load(s', m) <= Load(s, m) + rise * m
  {
    hide Rank;
    if m > 0 {
      LoadLowers(s, c, s', m - 1);
      if m - 1 != c { assert OtherLowered(s, c, s', m - 1); }
    }
  }

  /** Every step of a thread inside a call leaves less to do, whoever it is and whatever
      it does; a sleeper that wakes up for no reason is the one exception. */
  lemma StepLowers(s: State, c: Cpu, s': State)
    requires Inv(s) && Step(s, c, s') && !s.pc[c].Outside? && !Asleep(s.pc[c])
    ensures |s'.pc| == |s.pc| && Work(s') < Work(s)
  {
    hide ExecStartStep, ExecEndStep, ExclusiveStartStep, ExclusiveStep, InvOwner, OwnLowered, OtherLowered;
    var owner :| InvOwner(s, owner);
    ThreadLowers(s, c, s', owner, c);
    forall u | 0 <= u < |s.pc| && u != c ensures OtherLowered(s, c, s', u) {
      ThreadLowers(s, c, s', owner, u);
    }
    LoadLowers(s, c, s', |s.pc|);
  }

  /** A step inside a call, by a thread that is awake. */
  ghost predicate Busy(s: State, s': State)
  {
    exists c: Cpu :: Step(s, c, s') && !s.pc[c].Outside? && !Asleep(s.pc[c])
  }

  /** From `i` on nobody calls anything and nobody wakes up for no reason. */
  ghost predicate NothingNew(trace: seq<State>, i: nat)
  {
    forall j {:trigger trace[j]} | i <= j < |trace| - 1 :: Busy(trace[j], trace[j + 1])
  }

  lemma BusyLowers(s: State, s': State)
    requires Inv(s) && Busy(s, s')
    ensures Work(s') < Work(s)
  {
    hide ExecStartStep, ExecEndStep, ExclusiveStartStep, ExclusiveStep, Inv, Work;
    var c: Cpu :| Step(s, c, s') && !s.pc[c].Outside? && !Asleep(s.pc[c]);
    StepLowers(s, c, s');
  }

  /** However threads are scheduled, a run without new calls is over after as many
      steps as there is work left. */
  lemma {:induction false} WorkBounds(trace: seq<State>, i: nat)
    requires Run(trace) && i < |trace| && NothingNew(trace, i)
    ensures |trace| - 1 - i <= Work(trace[i])
    decreases |trace| - i
  {
    hide Busy, Run, Inv, Work;
    if i + 1 < |trace| {
      RunInv(trace, i);
      assert Busy(trace[i], trace[i + 1]);
      BusyLowers(trace[i], trace[i + 1]);
      WorkBounds(trace, i + 1);
    }
  }

  ghost predicate AllOutside(s: State)
  {
    forall c {:trigger s.pc[c]} | 0 <= c < |s.pc| :: s.pc[c].Outside?
  }

  /** A run with one more step. */
  ghost function Longer(trace: seq<State>, c: Cpu, s': State): (r: seq<State>)
    requires Run(trace) && Step(trace[|trace| - 1], c, s')
    ensures Run(r) && trace <= r && |r| == |trace| + 1 && r[|r| - 1] == s'
  {
    hide Step;
    var r := trace + [s'];
    assert forall i | 0 < i < |r| :: Next(r[i - 1], r[i]) by {
      forall i | 0 < i < |r| ensures Next(r[i - 1], r[i]) {
        if i < |trace| { assert Next(trace[i - 1], trace[i]); }
      }
    }
    r
  }

  /** Every run can be completed to one that leaves nobody inside a call: with
      WorkBounds, every one that goes on as long as somebody can move is. */
  lemma {:induction false} Completes(trace: seq<State>) returns (longer: seq<State>)
    requires Run(trace)
    ensures Run(longer) && trace <= longer && AllOutside(longer[|longer| - 1])
    ensures |longer[|longer| - 1].pc| == |trace[|trace| - 1].pc|
    decreases Work(trace[|trace| - 1])
  {
    hide Step, Inv, Init, Work;
    var s := trace[|trace| - 1];
    if AllOutside(s) {
      longer := trace;
    } else {
      var c: Cpu :| c < |s.pc| && !s.pc[c].Outside?;
      RunInv(trace, |trace| - 1);
      var d := SomeoneCanMove(trace, |trace| - 1, c);
      var s' := HasStep(s, d);
      StepLowers(s, d, s');
      longer := Completes(Longer(trace, d, s'));
    }
  }

  // ---- Through the section, and through guest code ---------------------------------

  /** Inside start_exclusive. */
  predicate Entering(pc: Pc)
  {
    || pc.ExclLock? || pc.ExclIdle? || pc.ExclIdleAsleep? || pc.ExclIdleWoken? || pc.ExclAnnounce? || pc.ExclScan?
    || pc.ExclPublish? || Waiting(pc) || pc.ExclUnlock? || pc.ExclEnter?
  }

  /** Inside cpu_exec_start. */
  predicate Starting(pc: Pc)
  {
    || pc.StartReadPending? || pc.StartLock? || pc.StartCheckWaiter? || pc.StartIdle? || pc.StartIdleAsleep?
    || pc.StartIdleWoken? || pc.StartSetRunning? || pc.StartUnlock?
  }

  lemma StepStays(s: State, c: Cpu, s': State, u: Cpu)
    requires Step(s, c, s') && u < |s.pc|
    ensures |s'.pc| == |s.pc|
    ensures Entering(s.pc[u]) ==> Entering(s'.pc[u]) || s'.pc[u].InExclusive?
    ensures Starting(s.pc[u]) ==> Starting(s'.pc[u]) || s'.pc[u].Executing?
  {
    if ExecStartStep(s, c, s') { StartStays(s, c, s', u); }
    else if ExecEndStep(s, c, s') { EndStays(s, c, s', u); }
    else if ExclusiveStartStep(s, c, s') { EnterStays(s, c, s', u); }
    else { ExclusiveStays(s, c, s', u); }
  }

  ghost predicate Stays(pc: Pc, pc': Pc)
  {
    && (Entering(pc) ==> Entering(pc') || pc'.InExclusive?)
    && (Starting(pc) ==> Starting(pc') || pc'.Executing?)
  }

  lemma StartStays(s: State, c: Cpu, s': State, u: Cpu)
    requires c < |s.pc| && ExecStartStep(s, c, s') && u < |s.pc|
    ensures |s'.pc| == |s.pc| && Stays(s.pc[u], s'.pc[u])
  {
  }

  lemma EndStays(s: State, c: Cpu, s': State, u: Cpu)
    requires c < |s.pc| && ExecEndStep(s, c, s') && u < |s.pc|
    ensures |s'.pc| == |s.pc| && Stays(s.pc[u], s'.pc[u])
  {
  }

  lemma EnterStays(s: State, c: Cpu, s': State, u: Cpu)
    requires c < |s.pc| && ExclusiveStartStep(s, c, s') && u < |s.pc|
    ensures |s'.pc| == |s.pc| && Stays(s.pc[u], s'.pc[u])
  {
  }

  lemma ExclusiveStays(s: State, c: Cpu, s': State, u: Cpu)
    requires c < |s.pc| && ExclusiveStep(s, c, s') && u < |s.pc|
    ensures |s'.pc| == |s.pc| && Stays(s.pc[u], s'.pc[u])
  {
  }

  /** A thread gets out of start_exclusive only into its section. */
  lemma {:induction false} ThroughSection(trace: seq<State>, i: nat, j: nat, u: Cpu) returns (k: nat)
    requires Run(trace) && i <= j < |trace| && u < |trace[i].pc| && Entering(trace[i].pc[u])
    requires u < |trace[j].pc| && !Entering(trace[j].pc[u])
    ensures i < k <= j && u < |trace[k].pc| && trace[k].pc[u].InExclusive? && u in trace[k].exclusiveContext
    decreases j - i
  {
    hide Step, Entering;
    assert Next(trace[i], trace[i + 1]);
    var c :| Step(trace[i], c, trace[i + 1]);
    StepStays(trace[i], c, trace[i + 1], u);
    if trace[i + 1].pc[u].InExclusive? {
      k := i + 1;
      RunInv(trace, k);
      var owner :| InvOwner(trace[k], owner);
      assert FlagInv(trace[k], u, owner);
    } else {
      k := ThroughSection(trace, i + 1, j, u);
    }
  }

  /** ... and out of cpu_exec_start only into guest code. */
  lemma {:induction false} ThroughGuest(trace: seq<State>, i: nat, j: nat, u: Cpu) returns (k: nat)
    requires Run(trace) && i <= j < |trace| && u < |trace[i].pc| && Starting(trace[i].pc[u])
    requires u < |trace[j].pc| && !Starting(trace[j].pc[u])
    ensures i < k <= j && u < |trace[k].pc| && trace[k].pc[u].Executing? && u in trace[k].running
    decreases j - i
  {
    hide Step, Starting;
    assert Next(trace[i], trace[i + 1]);
    var c :| Step(trace[i], c, trace[i + 1]);
    StepStays(trace[i], c, trace[i + 1], u);
    if trace[i + 1].pc[u].Executing? {
      k := i + 1;
      RunInv(trace, k);
      var owner :| InvOwner(trace[k], owner);
      assert FlagInv(trace[k], u, owner);
    } else {
      k := ThroughGuest(trace, i + 1, j, u);
    }
  }

  /** In any state of any run, a thread that is outside can get into a section. */
  lemma CanEnter(trace: seq<State>, u: Cpu) returns (longer: seq<State>, k: nat)
    requires Run(trace) && u < |trace[|trace| - 1].pc| && trace[|trace| - 1].pc[u].Outside?
    ensures Run(longer) && trace <= longer && |trace| < k < |longer|
    ensures u < |longer[k].pc| && longer[k].pc[u].InExclusive? && u in longer[k].exclusiveContext
  {
    var s := trace[|trace| - 1];
    var s' := Goto(s, u, ExclLock);
    assert ExclusiveStartStep(s, u, s');
    hide Step, AllOutside;
    var called := Longer(trace, u, s');
    longer := Completes(called);
    assert longer[|trace|] == s';
    NotInside(longer[|longer| - 1], u);
    k := ThroughSection(longer, |trace|, |longer| - 1, u);
  }

  /** ... and into guest code. */
  lemma CanExecute(trace: seq<State>, u: Cpu) returns (longer: seq<State>, k: nat)
    requires Run(trace) && u < |trace[|trace| - 1].pc| && trace[|trace| - 1].pc[u].Outside?
    ensures Run(longer) && trace <= longer && |trace| < k < |longer|
    ensures u < |longer[k].pc| && longer[k].pc[u].Executing? && u in longer[k].running
  {
    var s := trace[|trace| - 1];
    var s' := Goto(s, u, StartReadPending).(running := s.running + {u});
    assert ExecStartStep(s, u, s');
    hide Step, AllOutside;
    var called := Longer(trace, u, s');
    longer := Completes(called);
    assert longer[|trace|] == s';
    NotInside(longer[|longer| - 1], u);
    k := ThroughGuest(longer, |trace|, |longer| - 1, u);
  }

  lemma NotInside(s: State, u: Cpu)
    requires AllOutside(s) && u < |s.pc|
    ensures s.pc[u].Outside? && !Entering(s.pc[u]) && !Starting(s.pc[u])
  {
  }

  /** While the counter is 0, a CPU gets to guest code without the lock. */
  lemma FastPath(trace: seq<State>, u: Cpu) returns (longer: seq<State>)
    requires Run(trace)
    requires var s := trace[|trace| - 1]; u < |s.pc| && s.pc[u].Outside? && s.pending == 0
    ensures Run(longer) && trace <= longer && |longer| == |trace| + 2
    ensures var s := trace[|trace| - 1];
      longer[|longer| - 1] == s.(pc := s.pc[u := Executing], running := s.running + {u})
  {
    var s := trace[|trace| - 1];
    var s1 := Goto(s, u, StartReadPending).(running := s.running + {u});
    assert ExecStartStep(s, u, s1);
    var s2 := Goto(s1, u, Executing);
    assert ExecStartStep(s1, u, s2);
    hide Step, Run;
    longer := Longer(trace, u, s1);
    longer := Longer(longer, u, s2);
  }

  /** ... and out of it. */
  lemma FastExit(trace: seq<State>, u: Cpu) returns (longer: seq<State>)
    requires Run(trace)
    requires var s := trace[|trace| - 1]; u < |s.pc| && s.pc[u].Executing? && s.pending == 0
    ensures Run(longer) && trace <= longer && |longer| == |trace| + 2
    ensures var s := trace[|trace| - 1];
      longer[|longer| - 1] == s.(pc := s.pc[u := Outside], running := s.running - {u})
  {
    var s := trace[|trace| - 1];
    var s1 := Goto(s, u, EndReadPending).(running := s.running - {u});
    assert ExecEndStep(s, u, s1);
    var s2 := Goto(s1, u, Outside);
    assert ExecEndStep(s1, u, s2);
    hide Step, Run;
    longer := Longer(trace, u, s1);
    longer := Longer(longer, u, s2);
  }

  /** Sleepers are woken only when what they wait for has happened: all counted CPUs
      are out of guest code, or the section is over. */
  lemma WokenInTime(trace: seq<State>, i: nat, c: Cpu, u: Cpu)
    requires Run(trace) && i < |trace| && u < |trace[i].pc| && u != c
    ensures forall s' :: Step(trace[i], c, s') && Asleep(trace[i].pc[u]) && s'.pc[u] != trace[i].pc[u] ==>
      if trace[i].pc[u].ExclWaitAsleep? then trace[i].pending == 1 && trace[i].hasWaiter == {}
      else trace[i].pending == 0
  {
    var s := trace[i];
    RunInv(trace, i);
    var owner :| InvOwner(s, owner);
    forall s' | Step(s, c, s') && Asleep(s.pc[u]) && s'.pc[u] != s.pc[u]
      ensures if s.pc[u].ExclWaitAsleep? then s.pending == 1 && s.hasWaiter == {} else s.pending == 0
    {
      InvReady(s, c, owner);
      assert FlagInv(s, u, owner);
      WokenBy(s, c, s', owner, u);
    }
  }

  lemma WokenBy(s: State, c: Cpu, s': State, owner: Option<Cpu>, u: Cpu)
    requires Step(s, c, s') && Ready(s, c, owner) && u < |s.pc| == |s'.pc| && u != c && FlagInv(s, u, owner)
    requires Counted(s, owner) && Asleep(s.pc[u]) && s'.pc[u] != s.pc[u]
    ensures if s.pc[u].ExclWaitAsleep? then s.pending == 1 && s.hasWaiter == {} else s.pending == 0
  {
  }

  /** For any number of CPUs there is a run in which all of them are in guest code at once. */
  lemma {:induction false} AllExecute(n: nat, m: nat) returns (trace: seq<State>)
    requires m <= n
    ensures Run(trace) && var s := trace[|trace| - 1];
      && |s.pc| == n && s.pending == 0 && s.lock.Free?
      && (forall c {:trigger s.pc[c]} | 0 <= c < n :: s.pc[c] == if c < m then Executing else Outside)
    decreases m
  {
    hide Step, Next;
    if m == 0 {
      trace := [State(0, Free, {}, {}, {}, seq(n, c => Outside))];
    } else {
      trace := AllExecute(n, m - 1);
      trace := FastPath(trace, m - 1);
    }
  }
}
