/** Exclusive sections of vCPU threads: start_exclusive / end_exclusive against
    cpu_exec_start / cpu_exec_end.

    Every vCPU thread is a program counter; every shared access of the source
    (an atomic load or store, a lock or unlock, a condition wait, a signal) is
    one step, and the steps of all threads interleave arbitrarily.  The list
    of CPUs is a fixed, arbitrary set. */
module ExclusiveSections {
  import opened Helpers

  type Cpu = nat

  datatype Lock = Free | HeldBy(cpu: Cpu)

  /** Where a thread stands.  `Asleep` points have released the lock inside
      qemu_cond_wait; `Woken` points still have to take it back. */
  datatype Pc =
    | Outside
      // cpu_exec_start, `running` already set
    | StartReadPending
    | StartLock
    | StartCheckWaiter
    | StartIdle
    | StartIdleAsleep
    | StartIdleWoken
    | StartSetRunning
    | StartUnlock
    | Executing
      // cpu_exec_end, `running` already cleared
    | EndReadPending
    | EndLock
    | EndCheckWaiter
    | EndDecrement
    | EndSignal
    | EndUnlock
      // start_exclusive
    | ExclLock
    | ExclIdle
    | ExclIdleAsleep
    | ExclIdleWoken
    | ExclAnnounce
    | ExclScan(next: nat, runningCpus: nat)
    | ExclPublish(runningCpus: nat)
    | ExclWait
    | ExclWaitAsleep
    | ExclWaitWoken
    | ExclUnlock
    | ExclEnter
      // between start_exclusive and end_exclusive
    | InExclusive
      // end_exclusive
    | FinishLock
    | FinishClear
    | FinishBroadcast
    | FinishUnlock

  /** The shared variables, the flags of each CPU as the sets of CPUs on which
      they are true, and every thread's program counter. */
  datatype State = State(
    pending: int,
    lock: Lock,
    running: set<Cpu>,
    hasWaiter: set<Cpu>,
    exclusiveContext: set<Cpu>,
    pc: seq<Pc>)

  function Goto(s: State, c: Cpu, pc: Pc): (r: State)
    requires c < |s.pc|
  {
    s.(pc := s.pc[c := pc])
  }

  function Acquire(s: State, c: Cpu, pc: Pc): (r: State)
    requires c < |s.pc|
  {
    Goto(s, c, pc).(lock := HeldBy(c))
  }

  function Release(s: State, c: Cpu, pc: Pc): (r: State)
    requires c < |s.pc|
  {
    Goto(s, c, pc).(lock := Free)
  }

  ghost predicate Init(s: State)
  {
    && (forall c | 0 <= c < |s.pc| :: s.pc[c] == Outside)
    && s == State(0, Free, {}, {}, {}, s.pc)
  }

  predicate SleepsOnResume(pc: Pc)
  {
    pc.StartIdleAsleep? || pc.ExclIdleAsleep?
  }

  function WakeResume(pc: Pc): (r: Pc)
  {
    if pc.StartIdleAsleep? then StartIdleWoken
    else if pc.ExclIdleAsleep? then ExclIdleWoken
    else pc
  }

  /** qemu_cond_signal(&exclusive_cond): at least one sleeper wakes, if any. */
  ghost predicate SignalExclusive(s: State, c: Cpu, s': State)
    requires c < |s.pc|
  {
    && s' == s.(pc := s'.pc)
    && |s'.pc| == |s.pc|
    && s'.pc[c] == EndUnlock
    && (forall u | 0 <= u < |s.pc| && u != c ::
          s'.pc[u] == s.pc[u] || (s.pc[u].ExclWaitAsleep? && s'.pc[u].ExclWaitWoken?))
    && ((exists u :: 0 <= u < |s.pc| && s.pc[u].ExclWaitAsleep?) ==>
          exists u :: 0 <= u < |s.pc| && s.pc[u].ExclWaitAsleep? && s'.pc[u].ExclWaitWoken?)
  }

  /** qemu_cond_broadcast(&exclusive_resume): every sleeper wakes. */
  ghost predicate BroadcastResume(s: State, c: Cpu, s': State)
    requires c < |s.pc|
  {
    && s' == s.(pc := s'.pc)
    && |s'.pc| == |s.pc|
    && s'.pc[c] == FinishUnlock
    && (forall u | 0 <= u < |s.pc| && u != c :: s'.pc[u] == WakeResume(s.pc[u]))
  }

  /** cpu_exec_start, one shared access at a time. */
  ghost predicate ExecStartStep(s: State, c: Cpu, s': State)
    requires c < |s.pc|
  {
    match s.pc[c]
    case Outside => s' == Goto(s, c, StartReadPending).(running := s.running + {c})
    case StartReadPending =>
      s' == Goto(s, c, if s.pending != 0 then StartLock else Executing)
    case StartLock => s.lock.Free? && s' == Acquire(s, c, StartCheckWaiter)
    case StartCheckWaiter =>
      if c !in s.hasWaiter
      then s' == Goto(s, c, StartIdle).(running := s.running - {c})
      else s' == Goto(s, c, StartUnlock)
    case StartIdle =>
      if s.pending != 0
      then s' == Release(s, c, StartIdleAsleep)
      else s' == Goto(s, c, StartSetRunning)
    case StartIdleAsleep => s' == Goto(s, c, StartIdleWoken)  // spurious wakeup
    case StartIdleWoken => s.lock.Free? && s' == Acquire(s, c, StartIdle)
    case StartSetRunning => s' == Goto(s, c, StartUnlock).(running := s.running + {c})
    case StartUnlock => s' == Release(s, c, Executing)
    case _ => false
  }

  /** cpu_exec_end. */
  ghost predicate ExecEndStep(s: State, c: Cpu, s': State)
    requires c < |s.pc|
  {
    match s.pc[c]
    case Executing => s' == Goto(s, c, EndReadPending).(running := s.running - {c})
    case EndReadPending =>
      s' == Goto(s, c, if s.pending != 0 then EndLock else Outside)
    case EndLock => s.lock.Free? && s' == Acquire(s, c, EndCheckWaiter)
    case EndCheckWaiter =>
      if c in s.hasWaiter
      then s' == Goto(s, c, EndDecrement).(hasWaiter := s.hasWaiter - {c})
      else s' == Goto(s, c, EndUnlock)
    case EndDecrement => s' == Goto(s, c, EndSignal).(pending := s.pending - 1)
    case EndSignal =>
      if s.pending == 1 then SignalExclusive(s, c, s') else s' == Goto(s, c, EndUnlock)
    case EndUnlock => s' == Release(s, c, Outside)
    case _ => false
  }

  /** start_exclusive up to the loop over the CPUs. */
  ghost predicate ExclusiveStartStep(s: State, c: Cpu, s': State)
    requires c < |s.pc|
  {
    match s.pc[c]
    case Outside => s' == Goto(s, c, ExclLock)
    case ExclLock => s.lock.Free? && s' == Acquire(s, c, ExclIdle)
    case ExclIdle =>
      if s.pending != 0
      then s' == Release(s, c, ExclIdleAsleep)
      else s' == Goto(s, c, ExclAnnounce)
    case ExclIdleAsleep => s' == Goto(s, c, ExclIdleWoken)
    case ExclIdleWoken => s.lock.Free? && s' == Acquire(s, c, ExclIdle)
    case ExclAnnounce => s' == Goto(s, c, ExclScan(0, 0)).(pending := 1)
    case ExclScan(o, n) =>
      if o >= |s.pc| then s' == Goto(s, c, ExclPublish(n))
      else if o in s.running
      then s' == Goto(s, c, ExclScan(o + 1, n + 1)).(hasWaiter := s.hasWaiter + {o})
      else s' == Goto(s, c, ExclScan(o + 1, n))
    case _ => false
  }

  /** The rest of start_exclusive, and end_exclusive. */
  ghost predicate ExclusiveStep(s: State, c: Cpu, s': State)
    requires c < |s.pc|
  {
    match s.pc[c]
    case ExclPublish(n) => s' == Goto(s, c, ExclWait).(pending := n + 1)
    case ExclWait =>
      if s.pending > 1
      then s' == Release(s, c, ExclWaitAsleep)
      else s' == Goto(s, c, ExclUnlock)
    case ExclWaitAsleep => s' == Goto(s, c, ExclWaitWoken)
    case ExclWaitWoken => s.lock.Free? && s' == Acquire(s, c, ExclWait)
    case ExclUnlock => s' == Release(s, c, ExclEnter)
    case ExclEnter =>
      s' == Goto(s, c, InExclusive).(exclusiveContext := s.exclusiveContext + {c})
    case InExclusive =>
      s' == Goto(s, c, FinishLock).(exclusiveContext := s.exclusiveContext - {c})
    case FinishLock => s.lock.Free? && s' == Acquire(s, c, FinishClear)
    case FinishClear => s' == Goto(s, c, FinishBroadcast).(pending := 0)
    case FinishBroadcast => BroadcastResume(s, c, s')
    case FinishUnlock => s' == Release(s, c, Outside)
    case _ => false
  }

  ghost predicate Step(s: State, c: Cpu, s': State)
  {
    && c < |s.pc|
    && (|| ExecStartStep(s, c, s')
        || ExecEndStep(s, c, s')
        || ExclusiveStartStep(s, c, s')
        || ExclusiveStep(s, c, s'))
  }

  ghost predicate Next(s: State, s': State)
  {
    exists c :: Step(s, c, s')
  }

  /** A run: an initial state followed by steps of any threads in any order. */
  ghost predicate Run(trace: seq<State>)
  {
    && |trace| > 0
    && Init(trace[0])
    && (forall i | 0 < i < |trace| :: Next(trace[i - 1], trace[i]))
  }

  // ---- The inductive invariant -------------------------------------------

  predicate HoldsLock(pc: Pc)
  {
    match pc
    case StartCheckWaiter | StartIdle | StartSetRunning | StartUnlock => true
    case EndCheckWaiter | EndDecrement | EndSignal | EndUnlock => true
    case ExclIdle | ExclAnnounce | ExclScan(_, _) | ExclPublish(_) | ExclWait | ExclUnlock => true
    case FinishClear | FinishBroadcast | FinishUnlock => true
    case _ => false
  }

  /** `running` is true exactly at these points. */
  predicate RunningPc(pc: Pc)
  {
    pc.StartReadPending? || pc.StartLock? || pc.StartCheckWaiter? || pc.StartUnlock? || pc.Executing?
  }

  /** Points at which a CPU can still be counted by a starter: all of them lead
      through EndCheckWaiter without passing exclusive_idle. */
  predicate MarkablePc(pc: Pc)
  {
    RunningPc(pc) || pc.EndReadPending? || pc.EndLock? || pc.EndCheckWaiter?
  }

  predicate Waiting(pc: Pc)
  {
    pc.ExclWait? || pc.ExclWaitAsleep? || pc.ExclWaitWoken?
  }

  /** The wait for running CPUs is over and end_exclusive has not yet reset the counter. */
  predicate Exclusive(pc: Pc)
  {
    || pc.ExclUnlock? || pc.ExclEnter? || pc.InExclusive?
    || pc.FinishLock? || pc.FinishClear?
  }

  /** The thread that made `pending` non-zero. */
  predicate Owner(pc: Pc)
  {
    pc.ExclScan? || pc.ExclPublish? || Waiting(pc) || Exclusive(pc)
  }

  /** Once the owner has looked at `c`, `c` executes only if it was counted. */
  ghost predicate Settled(s: State, c: Cpu)
    requires c < |s.pc|
  {
    s.pc[c].Executing? || s.pc[c].StartUnlock? ==> c in s.hasWaiter
  }

  /** Where the thread holding the lock stands. */
  ghost function HolderPc(s: State): Pc
  {
    if s.lock.HeldBy? && s.lock.cpu < |s.pc| then s.pc[s.lock.cpu] else Outside
  }

  ghost function Decrementing(s: State): int
  {
    if HolderPc(s).EndDecrement? then 1 else 0
  }

  /** The lock, the ownership and each flag, read off a program counter. */
  ghost predicate FlagInv(s: State, c: Cpu, owner: Option<Cpu>)
    requires c < |s.pc|
  {
    && (s.lock == HeldBy(c) <==> HoldsLock(s.pc[c]))
    && (owner == Some(c) <==> Owner(s.pc[c]))
    && (c in s.running <==> RunningPc(s.pc[c]))
    && (c in s.exclusiveContext <==> s.pc[c].InExclusive?)
    && (c in s.hasWaiter ==> MarkablePc(s.pc[c]))
  }

  /** Nobody sleeps through the event it waits for. */
  ghost predicate SleepInv(s: State, c: Cpu)
    requires c < |s.pc|
  {
    && (s.pc[c].ExclWaitAsleep? ==> s.pending > 1 || HolderPc(s).EndSignal?)
    && (SleepsOnResume(s.pc[c]) ==> s.pending != 0 || HolderPc(s).FinishBroadcast?)
  }

  /** What a thread holding the lock knows about the counter. */
  ghost predicate HolderInv(s: State, pc: Pc)
  {
    && (pc.StartSetRunning? || pc.ExclAnnounce? || pc.FinishBroadcast? ==> s.pending == 0)
    && (pc.EndDecrement? ==> s.pending >= 2)
  }

  /** What the position of the thread that made `pending` non-zero says about the counter. */
  ghost predicate OwnerInv(s: State, pc: Pc)
  {
    && (pc.ExclScan? || pc.ExclPublish? ==> s.pending == 1 && pc.runningCpus == |s.hasWaiter|)
    && (Waiting(pc) ==> s.pending == 1 + |s.hasWaiter| + Decrementing(s))
    && (Exclusive(pc) ==> s.pending == 1 && s.hasWaiter == {} && Decrementing(s) == 0)
  }

  /** CPUs the owner has not looked at yet are not counted; the others execute only if they are. */
  ghost predicate Scanned(s: State, pc: Pc, c: Cpu)
    requires c < |s.pc|
  {
    if pc.ExclScan? && pc.next <= c then c !in s.hasWaiter else Settled(s, c)
  }

  ghost predicate Counted(s: State, owner: Option<Cpu>)
  {
    && (forall c | c in s.hasWaiter :: c < |s.pc|)
    && (owner.None? ==> s.pending == 0 && s.hasWaiter == {})
    && (owner.Some? ==>
          && owner.value < |s.pc|
          && OwnerInv(s, s.pc[owner.value])
          && forall c | 0 <= c < |s.pc| :: Scanned(s, s.pc[owner.value], c))
  }

  /** The invariant, relative to the thread that made `pending` non-zero. */
  ghost predicate InvOwner(s: State, owner: Option<Cpu>)
  {
    && (s.lock.HeldBy? ==> s.lock.cpu < |s.pc|)
    && (forall c | 0 <= c < |s.pc| :: FlagInv(s, c, owner))
    && Counted(s, owner)
    && HolderInv(s, HolderPc(s))
    && forall c | 0 <= c < |s.pc| :: SleepInv(s, c)
  }

  ghost predicate Inv(s: State)
  {
    exists owner :: InvOwner(s, owner)
  }

  function OwnerAfter(s: State, c: Cpu, owner: Option<Cpu>): (r: Option<Cpu>)
    requires c < |s.pc|
  {
    if s.pc[c].ExclAnnounce? then Some(c)
    else if s.pc[c].FinishClear? then None
    else owner
  }

  // ---- Preservation: the stepping thread, another thread, the owner's count ----

  /** What a step of `c` relies on. */
  ghost predicate Ready(s: State, c: Cpu, owner: Option<Cpu>)
    requires c < |s.pc|
  {
    && s.pending >= 0
    && (s.pending == 0 ==> owner.None? && s.hasWaiter == {})
    && FlagInv(s, c, owner)
    && HolderInv(s, s.pc[c])
    && (s.pc[c].EndCheckWaiter? && c in s.hasWaiter ==> s.pending >= 2)
  }

  lemma InvReady(s: State, c: Cpu, owner: Option<Cpu>)
    requires InvOwner(s, owner) && c < |s.pc|
    ensures Ready(s, c, owner)
    ensures owner.Some? ==> FlagInv(s, owner.value, owner)
    ensures forall v | 0 <= v < |s.pc| && s.pc[v].ExclWaitAsleep? :: owner == Some(v)
  {
    assert FlagInv(s, c, owner);
    assert owner.Some? ==> FlagInv(s, owner.value, owner);
    forall v | 0 <= v < |s.pc| && s.pc[v].ExclWaitAsleep? ensures owner == Some(v) {
      assert FlagInv(s, v, owner);
    }
  }

  lemma ExecStartSelf(s: State, c: Cpu, s': State, owner: Option<Cpu>)
    requires c < |s.pc| && ExecStartStep(s, c, s') && Ready(s, c, owner) && SleepInv(s, c)
    ensures |s'.pc| == |s.pc|
    ensures FlagInv(s', c, OwnerAfter(s, c, owner)) && SleepInv(s', c)
  {
  }

  lemma ExecStartOther(s: State, c: Cpu, s': State, owner: Option<Cpu>, u: Cpu)
    requires c < |s.pc| && ExecStartStep(s, c, s') && Ready(s, c, owner)
    requires u < |s.pc| && u != c && FlagInv(s, u, owner) && SleepInv(s, u)
    ensures |s'.pc| == |s.pc|
    ensures FlagInv(s', u, OwnerAfter(s, c, owner)) && SleepInv(s', u)
  {
  }

  lemma ExecStartOwner(s: State, c: Cpu, s': State, owner: Option<Cpu>)
    requires c < |s.pc| && ExecStartStep(s, c, s') && Ready(s, c, owner) && Counted(s, owner)
    requires owner.Some? ==> FlagInv(s, owner.value, owner)
    ensures |s'.pc| == |s.pc| && forall u | u in s'.hasWaiter :: u < |s'.pc|
    ensures var o := OwnerAfter(s, c, owner);
            if o.Some? then o.value < |s.pc| && OwnerInv(s', s'.pc[o.value])
            else s'.pending == 0 && s'.hasWaiter == {}
  {
  }

  lemma ExecStartScanned(s: State, c: Cpu, s': State, owner: Option<Cpu>, u: Cpu)
    requires c < |s.pc| && ExecStartStep(s, c, s') && Ready(s, c, owner) && Counted(s, owner)
    requires owner.Some? ==> FlagInv(s, owner.value, owner)
    requires u < |s.pc| && FlagInv(s, u, owner)
    ensures |s'.pc| == |s.pc|
    ensures var o := OwnerAfter(s, c, owner); o.Some? && o.value < |s.pc| ==> Scanned(s', s'.pc[o.value], u)
  {
    assert owner.Some? ==> Scanned(s, s.pc[owner.value], u);
  }

  lemma ExecEndSelf(s: State, c: Cpu, s': State, owner: Option<Cpu>)
    requires c < |s.pc| && ExecEndStep(s, c, s') && Ready(s, c, owner) && SleepInv(s, c)
    ensures |s'.pc| == |s.pc|
    ensures FlagInv(s', c, OwnerAfter(s, c, owner)) && SleepInv(s', c)
  {
  }

  lemma ExecEndOther(s: State, c: Cpu, s': State, owner: Option<Cpu>, u: Cpu)
    requires c < |s.pc| && ExecEndStep(s, c, s') && Ready(s, c, owner)
    requires u < |s.pc| && u != c && FlagInv(s, u, owner) && SleepInv(s, u)
    requires forall v | 0 <= v < |s.pc| && s.pc[v].ExclWaitAsleep? :: owner == Some(v)
    ensures |s'.pc| == |s.pc|
    ensures FlagInv(s', u, OwnerAfter(s, c, owner)) && SleepInv(s', u)
  {
  }

  lemma ExecEndOwner(s: State, c: Cpu, s': State, owner: Option<Cpu>)
    requires c < |s.pc| && ExecEndStep(s, c, s') && Ready(s, c, owner) && Counted(s, owner)
    requires owner.Some? ==> FlagInv(s, owner.value, owner)
    ensures |s'.pc| == |s.pc| && forall u | u in s'.hasWaiter :: u < |s'.pc|
    ensures var o := OwnerAfter(s, c, owner);
            if o.Some? then o.value < |s.pc| && OwnerInv(s', s'.pc[o.value])
            else s'.pending == 0 && s'.hasWaiter == {}
  {
  }

  lemma ExecEndScanned(s: State, c: Cpu, s': State, owner: Option<Cpu>, u: Cpu)
    requires c < |s.pc| && ExecEndStep(s, c, s') && Ready(s, c, owner) && Counted(s, owner)
    requires owner.Some? ==> FlagInv(s, owner.value, owner)
    requires u < |s.pc| && FlagInv(s, u, owner)
    ensures |s'.pc| == |s.pc|
    ensures var o := OwnerAfter(s, c, owner); o.Some? && o.value < |s.pc| ==> Scanned(s', s'.pc[o.value], u)
  {
    assert owner.Some? ==> Scanned(s, s.pc[owner.value], u);
  }

  lemma ExclusiveStartSelf(s: State, c: Cpu, s': State, owner: Option<Cpu>)
    requires c < |s.pc| && ExclusiveStartStep(s, c, s') && Ready(s, c, owner) && SleepInv(s, c)
    ensures |s'.pc| == |s.pc|
    ensures FlagInv(s', c, OwnerAfter(s, c, owner)) && SleepInv(s', c)
  {
  }

  lemma ExclusiveStartOther(s: State, c: Cpu, s': State, owner: Option<Cpu>, u: Cpu)
    requires c < |s.pc| && ExclusiveStartStep(s, c, s') && Ready(s, c, owner)
    requires u < |s.pc| && u != c && FlagInv(s, u, owner) && SleepInv(s, u)
    ensures |s'.pc| == |s.pc|
    ensures FlagInv(s', u, OwnerAfter(s, c, owner)) && SleepInv(s', u)
  {
  }

  lemma ScanOwner(s: State, c: Cpu, s': State, owner: Option<Cpu>)
    requires c < |s.pc| && ExclusiveStartStep(s, c, s') && s.pc[c].ExclScan?
    requires owner == Some(c) && Counted(s, owner)
    ensures |s'.pc| == |s.pc| && forall u | u in s'.hasWaiter :: u < |s'.pc|
    ensures OwnerInv(s', s'.pc[c])
  {
    var pc := s.pc[c];
    assert pc.next < |s.pc| ==> Scanned(s, pc, pc.next);
  }

  lemma UnscannedOwner(s: State, c: Cpu, s': State, owner: Option<Cpu>)
    requires c < |s.pc| && ExclusiveStartStep(s, c, s') && Ready(s, c, owner) && Counted(s, owner)
    requires !s.pc[c].ExclScan?
    requires owner.Some? ==> FlagInv(s, owner.value, owner)
    ensures |s'.pc| == |s.pc| && forall u | u in s'.hasWaiter :: u < |s'.pc|
    ensures var o := OwnerAfter(s, c, owner);
            if o.Some? then o.value < |s.pc| && OwnerInv(s', s'.pc[o.value])
            else s'.pending == 0 && s'.hasWaiter == {}
  {
  }

  lemma ExclusiveStartOwner(s: State, c: Cpu, s': State, owner: Option<Cpu>)
    requires c < |s.pc| && ExclusiveStartStep(s, c, s') && Ready(s, c, owner) && Counted(s, owner)
    requires owner.Some? ==> FlagInv(s, owner.value, owner)
    ensures |s'.pc| == |s.pc| && forall u | u in s'.hasWaiter :: u < |s'.pc|
    ensures var o := OwnerAfter(s, c, owner);
            if o.Some? then o.value < |s.pc| && OwnerInv(s', s'.pc[o.value])
            else s'.pending == 0 && s'.hasWaiter == {}
  {
    hide OwnerInv, Counted;
    if s.pc[c].ExclScan? {
      ScanOwner(s, c, s', owner);
    } else {
      UnscannedOwner(s, c, s', owner);
    }
  }

  lemma ExclusiveStartScanned(s: State, c: Cpu, s': State, owner: Option<Cpu>, u: Cpu)
    requires c < |s.pc| && ExclusiveStartStep(s, c, s') && Ready(s, c, owner) && Counted(s, owner)
    requires owner.Some? ==> FlagInv(s, owner.value, owner)
    requires u < |s.pc| && FlagInv(s, u, owner)
    ensures |s'.pc| == |s.pc|
    ensures var o := OwnerAfter(s, c, owner); o.Some? && o.value < |s.pc| ==> Scanned(s', s'.pc[o.value], u)
  {
    assert owner.Some? ==> Scanned(s, s.pc[owner.value], u);
  }

  lemma ExclusiveSelf(s: State, c: Cpu, s': State, owner: Option<Cpu>)
    requires c < |s.pc| && ExclusiveStep(s, c, s') && Ready(s, c, owner) && SleepInv(s, c)
    ensures |s'.pc| == |s.pc|
    ensures FlagInv(s', c, OwnerAfter(s, c, owner)) && SleepInv(s', c)
  {
  }

  lemma ExclusiveOther(s: State, c: Cpu, s': State, owner: Option<Cpu>, u: Cpu)
    requires c < |s.pc| && ExclusiveStep(s, c, s') && Ready(s, c, owner)
    requires u < |s.pc| && u != c && FlagInv(s, u, owner) && SleepInv(s, u)
    ensures |s'.pc| == |s.pc|
    ensures FlagInv(s', u, OwnerAfter(s, c, owner)) && SleepInv(s', u)
  {
  }

  lemma ExclusiveOwner(s: State, c: Cpu, s': State, owner: Option<Cpu>)
    requires c < |s.pc| && ExclusiveStep(s, c, s') && Ready(s, c, owner) && Counted(s, owner)
    requires owner.Some? ==> FlagInv(s, owner.value, owner)
    ensures |s'.pc| == |s.pc| && forall u | u in s'.hasWaiter :: u < |s'.pc|
    ensures var o := OwnerAfter(s, c, owner);
            if o.Some? then o.value < |s.pc| && OwnerInv(s', s'.pc[o.value])
            else s'.pending == 0 && s'.hasWaiter == {}
  {
  }

  lemma ExclusiveScanned(s: State, c: Cpu, s': State, owner: Option<Cpu>, u: Cpu)
    requires c < |s.pc| && ExclusiveStep(s, c, s') && Ready(s, c, owner) && Counted(s, owner)
    requires owner.Some? ==> FlagInv(s, owner.value, owner)
    requires u < |s.pc| && FlagInv(s, u, owner)
    ensures |s'.pc| == |s.pc|
    ensures var o := OwnerAfter(s, c, owner); o.Some? && o.value < |s.pc| ==> Scanned(s', s'.pc[o.value], u)
  {
    assert owner.Some? ==> Scanned(s, s.pc[owner.value], u);
  }

  lemma StepHolder(s: State, c: Cpu, s': State, owner: Option<Cpu>)
    requires InvOwner(s, owner) && Step(s, c, s') && Ready(s, c, owner)
    ensures HolderInv(s', HolderPc(s')) && (s'.lock.HeldBy? ==> s'.lock.cpu < |s'.pc|)
  {
  }

  lemma StepThread(s: State, c: Cpu, s': State, owner: Option<Cpu>, u: Cpu)
    requires InvOwner(s, owner) && Step(s, c, s') && u < |s.pc|
    ensures |s'.pc| == |s.pc|
    ensures FlagInv(s', u, OwnerAfter(s, c, owner)) && SleepInv(s', u)
  {
    InvReady(s, c, owner);
    assert FlagInv(s, u, owner) && SleepInv(s, u);
    if u == c {
      if ExecStartStep(s, c, s') { ExecStartSelf(s, c, s', owner); }
      else if ExecEndStep(s, c, s') { ExecEndSelf(s, c, s', owner); }
      else if ExclusiveStartStep(s, c, s') { ExclusiveStartSelf(s, c, s', owner); }
      else { ExclusiveSelf(s, c, s', owner); }
    } else {
      if ExecStartStep(s, c, s') { ExecStartOther(s, c, s', owner, u); }
      else if ExecEndStep(s, c, s') { ExecEndOther(s, c, s', owner, u); }
      else if ExclusiveStartStep(s, c, s') { ExclusiveStartOther(s, c, s', owner, u); }
      else { ExclusiveOther(s, c, s', owner, u); }
    }
  }

  lemma StepCounted(s: State, c: Cpu, s': State, owner: Option<Cpu>)
    requires InvOwner(s, owner) && Step(s, c, s')
    ensures Counted(s', OwnerAfter(s, c, owner))
  {
    InvReady(s, c, owner);
    if ExecStartStep(s, c, s') { ExecStartOwner(s, c, s', owner); }
    else if ExecEndStep(s, c, s') { ExecEndOwner(s, c, s', owner); }
    else if ExclusiveStartStep(s, c, s') { ExclusiveStartOwner(s, c, s', owner); }
    else { ExclusiveOwner(s, c, s', owner); }
    forall u | 0 <= u < |s.pc|
      ensures OwnerAfter(s, c, owner).Some? ==> Scanned(s', s'.pc[OwnerAfter(s, c, owner).value], u)
    {
      assert FlagInv(s, u, owner);
      if ExecStartStep(s, c, s') { ExecStartScanned(s, c, s', owner, u); }
      else if ExecEndStep(s, c, s') { ExecEndScanned(s, c, s', owner, u); }
      else if ExclusiveStartStep(s, c, s') { ExclusiveStartScanned(s, c, s', owner, u); }
      else { ExclusiveScanned(s, c, s', owner, u); }
    }
  }

  lemma StepInv(s: State, c: Cpu, s': State)
    requires Inv(s) && Step(s, c, s')
    ensures Inv(s')
  {
    var owner :| InvOwner(s, owner);
    forall u | 0 <= u < |s.pc|
      ensures |s'.pc| == |s.pc| && FlagInv(s', u, OwnerAfter(s, c, owner)) && SleepInv(s', u)
    {
      StepThread(s, c, s', owner, u);
    }
    StepThread(s, c, s', owner, c);
    StepCounted(s, c, s', owner);
    InvReady(s, c, owner);
    StepHolder(s, c, s', owner);
    assert InvOwner(s', OwnerAfter(s, c, owner));
  }

  /** Every state of every run satisfies the invariant. */
  lemma {:induction false} RunInv(trace: seq<State>, i: nat)
    requires Run(trace) && i < |trace|
    ensures Inv(trace[i])
  {
    if i == 0 {
      assert InvOwner(trace[0], None);
    } else {
      RunInv(trace, i - 1);
      assert Next(trace[i - 1], trace[i]);
      var c :| Step(trace[i - 1], c, trace[i]);
      StepInv(trace[i - 1], c, trace[i]);
    }
  }

  // ---- What the protocol guarantees ---------------------------------------

  /** While a thread is past the wait of start_exclusive and has not reset the
      counter, it is alone there and no CPU is between cpu_exec_start and
      cpu_exec_end. */
  lemma MutualExclusion(trace: seq<State>, i: nat, c: Cpu, d: Cpu)
    requires Run(trace) && i < |trace|
    requires c < |trace[i].pc| && d < |trace[i].pc|
    requires Exclusive(trace[i].pc[c]) || c in trace[i].exclusiveContext
    ensures !trace[i].pc[d].Executing?
    ensures Exclusive(trace[i].pc[d]) ==> d == c
    ensures d in trace[i].exclusiveContext ==> d == c
  {
    RunInv(trace, i);
    var s := trace[i];
    var owner :| InvOwner(s, owner);
    assert FlagInv(s, c, owner) && FlagInv(s, d, owner);
    assert Scanned(s, s.pc[c], d);
  }

  /** Whenever the list lock is free the counter is exact, and every counted
      CPU is on its way to the decrement in cpu_exec_end. */
  lemma CounterExact(trace: seq<State>, i: nat)
    requires Run(trace) && i < |trace| && trace[i].lock.Free?
    ensures var s := trace[i];
            || (s.pending == 0 && s.hasWaiter == {})
            || s.pending == 1 + |s.hasWaiter|
    ensures forall c | c in trace[i].hasWaiter :: c < |trace[i].pc| && MarkablePc(trace[i].pc[c])
  {
    RunInv(trace, i);
    var s := trace[i];
    var owner :| InvOwner(s, owner);
    assert owner.Some? ==> FlagInv(s, owner.value, owner);
    forall c | c in s.hasWaiter ensures c < |s.pc| && MarkablePc(s.pc[c]) {
      assert FlagInv(s, c, owner);
    }
  }

  /** How many of its own steps a counted CPU is away from clearing its mark. */
  function StepsToDecrement(pc: Pc): (r: nat)
    requires MarkablePc(pc)
  {
    match pc
    case StartReadPending => 7
    case StartLock => 6
    case StartCheckWaiter => 5
    case StartUnlock => 4
    case Executing => 3
    case EndReadPending => 2
    case EndLock => 1
    case EndCheckWaiter => 0
  }

  ghost predicate CloserToDecrement(s: State, c: Cpu, s': State, d: Cpu)
    requires d < |s.pc| == |s'.pc| && MarkablePc(s.pc[d])
  {
    if d !in s'.hasWaiter then c == d && s'.pc[d].EndDecrement?
    else if c != d then s'.pc[d] == s.pc[d]
    else MarkablePc(s'.pc[d]) && StepsToDecrement(s'.pc[d]) < StepsToDecrement(s.pc[d])
  }

  lemma OwnStepOfCounted(s: State, c: Cpu, s': State, owner: Option<Cpu>)
    requires Step(s, c, s') && Ready(s, c, owner) && c in s.hasWaiter
    ensures |s.pc| == |s'.pc| && CloserToDecrement(s, c, s', c)
  {
  }

  lemma OtherStepOfCounted(s: State, c: Cpu, s': State, owner: Option<Cpu>, d: Cpu)
    requires Step(s, c, s') && d < |s.pc| && d != c
    requires d in s.hasWaiter && FlagInv(s, d, owner)
    ensures |s.pc| == |s'.pc| && CloserToDecrement(s, c, s', d)
  {
  }

  /** A counted CPU stays counted until its own cpu_exec_end takes it off, and
      each step it makes before that brings it closer to doing so: no step of
      anybody sends it to sleep or back. */
  lemma CountedReachesDecrement(trace: seq<State>, i: nat, c: Cpu, d: Cpu)
    requires Run(trace) && i + 1 < |trace| && d in trace[i].hasWaiter
    requires Step(trace[i], c, trace[i + 1])
    ensures d < |trace[i].pc| == |trace[i + 1].pc| && MarkablePc(trace[i].pc[d])
    ensures CloserToDecrement(trace[i], c, trace[i + 1], d)
  {
    RunInv(trace, i);
    var owner :| InvOwner(trace[i], owner);
    InvReady(trace[i], d, owner);
    if c == d {
      OwnStepOfCounted(trace[i], c, trace[i + 1], owner);
    } else {
      OtherStepOfCounted(trace[i], c, trace[i + 1], owner, d);
    }
  }

  predicate Asleep(pc: Pc)
  {
    pc.ExclWaitAsleep? || SleepsOnResume(pc)
  }

  /** Points that need the lock for their next step. */
  predicate NeedsLock(pc: Pc)
  {
    || pc.StartLock? || pc.StartIdleWoken? || pc.EndLock?
    || pc.ExclLock? || pc.ExclIdleWoken? || pc.ExclWaitWoken? || pc.FinishLock?
  }

  /** `c` is inside one of the four functions (or executing, or exclusive) and
      can move without waiting for anybody. */
  predicate CanMove(s: State, c: Cpu)
    requires c < |s.pc|
  {
    && !s.pc[c].Outside?
    && !Asleep(s.pc[c])
    && (NeedsLock(s.pc[c]) ==> s.lock.Free?)
  }

  /** No lost wakeup: a sleeping starter always has a counted CPU, or a CPU
      about to signal it, to wait for; a thread sleeping until exclusive
      operations are over has an owner, or a broadcaster, to wait for. */
  lemma NoLostWakeup(trace: seq<State>, i: nat, c: Cpu)
    requires Run(trace) && i < |trace| && c < |trace[i].pc|
    ensures trace[i].pc[c].ExclWaitAsleep? ==>
              || trace[i].hasWaiter != {}
              || HolderPc(trace[i]).EndDecrement?
              || HolderPc(trace[i]).EndSignal?
    ensures SleepsOnResume(trace[i].pc[c]) ==>
              || HolderPc(trace[i]).FinishBroadcast?
              || exists o: nat :: o < |trace[i].pc| && Owner(trace[i].pc[o])
  {
    RunInv(trace, i);
    var s := trace[i];
    var owner :| InvOwner(s, owner);
    assert FlagInv(s, c, owner) && SleepInv(s, c);
    assert owner.Some? ==> FlagInv(s, owner.value, owner);
  }

  /** A thread that can move has a step to take. */
  lemma HasStep(s: State, c: Cpu) returns (s': State)
    requires c < |s.pc| && CanMove(s, c)
    ensures Step(s, c, s')
  {
    if s.pc[c].EndSignal? && s.pending == 1 {
      s' := s.(pc := seq(|s.pc|, u requires 0 <= u < |s.pc| =>
        if u == c then EndUnlock else if s.pc[u].ExclWaitAsleep? then ExclWaitWoken else s.pc[u]));
      assert SignalExclusive(s, c, s');
    } else if s.pc[c].FinishBroadcast? {
      s' := s.(pc := seq(|s.pc|, u requires 0 <= u < |s.pc| =>
        if u == c then FinishUnlock else WakeResume(s.pc[u])));
      assert BroadcastResume(s, c, s');
    } else if s.pc[c].EndSignal? {
      s' := Goto(s, c, EndUnlock);
    } else {
      s' := PlainStep(s, c);
    }
  }

  /** The steps that wake nobody. */
  lemma PlainStep(s: State, c: Cpu) returns (s': State)
    requires c < |s.pc| && CanMove(s, c) && !s.pc[c].EndSignal? && !s.pc[c].FinishBroadcast?
    ensures Step(s, c, s')
  {
    match s.pc[c]
    case StartReadPending => s' := Goto(s, c, if s.pending != 0 then StartLock else Executing);
    case StartLock => s' := Acquire(s, c, StartCheckWaiter);
    case StartCheckWaiter =>
      s' := if c !in s.hasWaiter then Goto(s, c, StartIdle).(running := s.running - {c}) else Goto(s, c, StartUnlock);
    case StartIdle =>
      s' := if s.pending != 0 then Release(s, c, StartIdleAsleep) else Goto(s, c, StartSetRunning);
    case StartIdleWoken => s' := Acquire(s, c, StartIdle);
    case StartSetRunning => s' := Goto(s, c, StartUnlock).(running := s.running + {c});
    case StartUnlock => s' := Release(s, c, Executing);
    case Executing => s' := Goto(s, c, EndReadPending).(running := s.running - {c});
    case EndReadPending => s' := Goto(s, c, if s.pending != 0 then EndLock else Outside);
    case EndLock => s' := Acquire(s, c, EndCheckWaiter);
    case EndCheckWaiter =>
      s' := if c in s.hasWaiter then Goto(s, c, EndDecrement).(hasWaiter := s.hasWaiter - {c})
            else Goto(s, c, EndUnlock);
    case EndDecrement => s' := Goto(s, c, EndSignal).(pending := s.pending - 1);
    case EndUnlock => s' := Release(s, c, Outside);
    case ExclLock => s' := Acquire(s, c, ExclIdle);
    case ExclIdle => s' := if s.pending != 0 then Release(s, c, ExclIdleAsleep) else Goto(s, c, ExclAnnounce);
    case ExclIdleWoken => s' := Acquire(s, c, ExclIdle);
    case ExclAnnounce => s' := Goto(s, c, ExclScan(0, 0)).(pending := 1);
    case ExclScan(o, n) =>
      s' := if o >= |s.pc| then Goto(s, c, ExclPublish(n))
            else if o in s.running then Goto(s, c, ExclScan(o + 1, n + 1)).(hasWaiter := s.hasWaiter + {o})
            else Goto(s, c, ExclScan(o + 1, n));
    case ExclPublish(n) => s' := Goto(s, c, ExclWait).(pending := n + 1);
    case ExclWait => s' := if s.pending > 1 then Release(s, c, ExclWaitAsleep) else Goto(s, c, ExclUnlock);
    case ExclWaitWoken => s' := Acquire(s, c, ExclWait);
    case ExclUnlock => s' := Release(s, c, ExclEnter);
    case ExclEnter => s' := Goto(s, c, InExclusive).(exclusiveContext := s.exclusiveContext + {c});
    case InExclusive => s' := Goto(s, c, FinishLock).(exclusiveContext := s.exclusiveContext - {c});
    case FinishLock => s' := Acquire(s, c, FinishClear);
    case FinishClear => s' := Goto(s, c, FinishBroadcast).(pending := 0);
    case FinishUnlock => s' := Release(s, c, Outside);
  }

  /** The protocol cannot get stuck: as long as some thread is inside it, some
      thread can move, and has a step to take. */
  lemma DeadlockFree(trace: seq<State>, i: nat, c: Cpu)
    requires Run(trace) && i < |trace| && c < |trace[i].pc|
    requires !trace[i].pc[c].Outside?
    ensures exists d: nat, s' :: d < |trace[i].pc| && CanMove(trace[i], d) && Step(trace[i], d, s')
  {
    var d := SomeoneCanMove(trace, i, c);
    var s' := HasStep(trace[i], d);
  }

  lemma SomeoneCanMove(trace: seq<State>, i: nat, c: Cpu) returns (d: Cpu)
    requires Run(trace) && i < |trace| && c < |trace[i].pc|
    requires !trace[i].pc[c].Outside?
    ensures d < |trace[i].pc| && CanMove(trace[i], d)
  {
    RunInv(trace, i);
    var s := trace[i];
    var owner :| InvOwner(s, owner);
    assert FlagInv(s, c, owner) && SleepInv(s, c);
    if s.lock.HeldBy? {
      assert FlagInv(s, s.lock.cpu, owner);
      d := s.lock.cpu;
    } else if !Asleep(s.pc[c]) {
      d := c;
    } else {
      d := owner.value;
      assert FlagInv(s, d, owner) && SleepInv(s, d);
      if !CanMove(s, d) {
        assert s.hasWaiter != {};
        d :| d in s.hasWaiter;
        assert FlagInv(s, d, owner);
      }
    }
  }
}
