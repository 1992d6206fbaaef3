/** The single bounce buffer that maps of device memory share, and the list of
    clients that wait for it, as a state machine over the steps of any number of
    threads. */
module BounceBuffer {
  import opened Helpers

  type Thread = nat
  type Client = nat

  const PAGE_SIZE: nat := 4096

  /** Where a thread is.  `Filling` to `Releasing` is a map of device memory from
      its successful exchange to the end of its unmap. */
  datatype Pc =
    | Out
    | Filling(addr: nat, len: nat, isWrite: bool)
    | Using(addr: nat, len: nat, isWrite: bool, grant: nat)
    | WritingBack(addr: nat, access: nat, grant: nat)
    | Freeing(access: nat, isWrite: bool, grant: nat)
    | Releasing(access: nat, isWrite: bool, grant: nat)
    | NotifyLocking
    | Notifying
    | NotifyUnlocking
    | RegisterLocking(client: Client)
    | Inserting(client: Client)
    | ReadingInUse
    | RegisterNotifying
    | RegisterUnlocking
    | UnregisterLocking(client: Client)
    | Removing(client: Client)
    | UnregisterUnlocking

  /** A map that got the buffer, and whether the buffer was filled from memory for it. */
  datatype Grant = Grant(addr: nat, len: nat, isWrite: bool, filled: bool)

  /** What an unmap wrote back, and the grant of the map it ends. */
  datatype Written = Written(grant: nat, addr: nat, len: nat)

  /** `grants` logs every map that got the buffer, `written` what unmaps wrote back; the
      last three fields count clients ever registered, scheduled and unregistered. */
  datatype State = State(
    pcs: seq<Pc>,
    inUse: bool,
    lock: bool,
    buffer: bool,
    addr: nat,
    len: nat,
    grants: seq<Grant>,
    written: seq<Written>,
    clients: seq<Client>,
    registered: multiset<Client>,
    scheduled: multiset<Client>,
    removed: multiset<Client>)

  /** The list without the first occurrence of a client. */
  function WithoutFirst(s: seq<Client>, c: Client): (r: seq<Client>)
    ensures multiset(r) == if c in s then multiset(s) - multiset{c} else multiset(s)
  {
    if s == [] then []
    else
      assert s == [s[0]] + s[1..];
      if s[0] == c then s[1..] else [s[0]] + WithoutFirst(s[1..], c)
  }

  function At(s: State, t: Thread, pc: Pc): State
    requires t < |s.pcs|
  {
    s.(pcs := s.pcs[t := pc])
  }

  /** A map of device memory: the exchange either takes the buffer or fails at once. */
  ghost predicate MapStep(s: State, s': State, t: Thread)
    requires t < |s.pcs|
  {
    match s.pcs[t]
    case Out => exists a, l, w ::
      s' == if s.inUse then s else At(s, t, Filling(a, l, w)).(inUse := true)
    case Filling(a, l, w) =>
      var granted := Min(l, PAGE_SIZE);
      s' == At(s, t, Using(a, granted, w, |s.grants|)).(buffer := true, addr := a, len := granted,
                                                        grants := s.grants + [Grant(a, granted, w, !w)])
    case _ => false
  }

  /** The unmap: write back for a write mapping, free, release. */
  ghost predicate UnmapStep(s: State, s': State, t: Thread)
    requires t < |s.pcs|
  {
    match s.pcs[t]
    case Using(a, l, w, k) => exists n: nat ::
      n <= l && s' == At(s, t, if w then WritingBack(a, n, k) else Freeing(n, false, k))
    case WritingBack(_, n, k) => s' == At(s, t, Freeing(n, true, k)).(written := s.written + [Written(k, s.addr, n)])
    case Freeing(n, w, k) => s' == At(s, t, Releasing(n, w, k)).(buffer := false)
    case Releasing(_, _, _) => s' == At(s, t, NotifyLocking).(inUse := false)
    case _ => false
  }

  /** Notifying the clients, with the list locked. */
  ghost predicate NotifyStep(s: State, s': State, t: Thread)
    requires t < |s.pcs|
  {
    match s.pcs[t]
    case NotifyLocking => !s.lock && s' == At(s, t, Notifying).(lock := true)
    case Notifying => s' == if s.clients == [] then At(s, t, NotifyUnlocking) else Notified(s)
    case NotifyUnlocking => s' == At(s, t, Out).(lock := false)
    case _ => false
  }

  /** The first client in the list is scheduled. */
  function Notified(s: State): State
    requires s.clients != []
  {
    s.(clients := s.clients[1..], scheduled := s.scheduled + multiset{s.clients[0]})
  }

  ghost predicate RegisterStep(s: State, s': State, t: Thread)
    requires t < |s.pcs|
  {
    match s.pcs[t]
    case Out => exists c :: s' == At(s, t, RegisterLocking(c))
    case RegisterLocking(c) => !s.lock && s' == At(s, t, Inserting(c)).(lock := true)
    case Inserting(c) =>
      s' == At(s, t, ReadingInUse).(clients := [c] + s.clients, registered := s.registered + multiset{c})
    case _ => false
  }

  /** With the client in the list, the registration looks whether the buffer is free. */
  ghost predicate RegisteredStep(s: State, s': State, t: Thread)
    requires t < |s.pcs|
  {
    match s.pcs[t]
    case ReadingInUse => s' == At(s, t, if s.inUse then RegisterUnlocking else RegisterNotifying)
    case RegisterNotifying => s' == if s.clients == [] then At(s, t, RegisterUnlocking) else Notified(s)
    case RegisterUnlocking => s' == At(s, t, Out).(lock := false)
    case _ => false
  }

  ghost predicate UnregisterStep(s: State, s': State, t: Thread)
    requires t < |s.pcs|
  {
    match s.pcs[t]
    case Out => exists c :: s' == At(s, t, UnregisterLocking(c))
    case UnregisterLocking(c) => !s.lock && s' == At(s, t, Removing(c)).(lock := true)
    case Removing(c) => s' == At(s, t, UnregisterUnlocking).(clients := WithoutFirst(s.clients, c),
      removed := if c in s.clients then s.removed + multiset{c} else s.removed)
    case UnregisterUnlocking => s' == At(s, t, Out).(lock := false)
    case _ => false
  }

  ghost predicate Step(s: State, s': State, t: Thread)
    requires t < |s.pcs|
  {
    || MapStep(s, s', t) || UnmapStep(s, s', t) || NotifyStep(s, s', t)
    || RegisterStep(s, s', t) || RegisteredStep(s, s', t) || UnregisterStep(s, s', t)
  }

  ghost predicate Init(s: State)
  {
    && (forall t {:trigger s.pcs[t]} | 0 <= t < |s.pcs| :: s.pcs[t].Out?)
    && !s.inUse && !s.lock && !s.buffer && s.clients == [] && s.grants == [] && s.written == []
    && s.registered == s.scheduled == s.removed == multiset{}
  }

  ghost predicate Next(s: State, s': State)
  {
    exists t: Thread :: t < |s.pcs| && Step(s, s', t)
  }

  ghost predicate Run(states: seq<State>)
  {
    && |states| > 0 && Init(states[0])
    && forall i {:trigger states[i]} | 0 < i < |states| :: Next(states[i - 1], states[i])
  }

  // ---- The invariant ---------------------------------------------------------

  predicate Owner(pc: Pc)
  {
    pc.Filling? || pc.Using? || pc.WritingBack? || pc.Freeing? || pc.Releasing?
  }

  predicate Holder(pc: Pc)
  {
    || pc.Notifying? || pc.NotifyUnlocking? || pc.Inserting? || pc.ReadingInUse? || pc.RegisterNotifying?
    || pc.RegisterUnlocking? || pc.Removing? || pc.UnregisterUnlocking?
  }

  /** A thread that is bound to notify, or to look whether it has to. */
  predicate Notifier(pc: Pc)
  {
    pc.NotifyLocking? || pc.Notifying? || pc.ReadingInUse? || pc.RegisterNotifying?
  }

  /** The buffer is what the thread that owns it has made of it. */
  predicate Owned(s: State, pc: Pc)
  {
    match pc
    case Using(a, l, _, _) => s.buffer && s.addr == a && s.len == l
    case WritingBack(a, n, _) => s.buffer && s.addr == a && n <= s.len
    case Freeing(_, _, _) => s.buffer
    case Filling(_, _, _) => !s.buffer
    case Releasing(_, _, _) => !s.buffer
    case _ => true
  }

  ghost predicate OwnerInv(s: State)
  {
    && (forall t, u {:trigger s.pcs[t], s.pcs[u]} | 0 <= t < u < |s.pcs| :: !(Owner(s.pcs[t]) && Owner(s.pcs[u])))
    && (s.inUse <==> exists t :: 0 <= t < |s.pcs| && Owner(s.pcs[t]))
    && (forall t {:trigger s.pcs[t]} | 0 <= t < |s.pcs| :: Owned(s, s.pcs[t]))
    && (!s.inUse ==> !s.buffer)
  }

  ghost predicate LockInv(s: State)
  {
    && (forall t, u {:trigger s.pcs[t], s.pcs[u]} | 0 <= t < u < |s.pcs| :: !(Holder(s.pcs[t]) && Holder(s.pcs[u])))
    && (s.lock <==> exists t :: 0 <= t < |s.pcs| && Holder(s.pcs[t]))
  }

  ghost predicate WakeInv(s: State)
  {
    s.clients != [] ==> s.inUse || exists t :: 0 <= t < |s.pcs| && Notifier(s.pcs[t])
  }

  ghost predicate CountInv(s: State)
  {
    s.registered == multiset(s.clients) + s.scheduled + s.removed
  }

  /** `k` is the grant of a write map from `a` of at least `n` bytes. */
  predicate Granted(s: State, k: nat, a: nat, n: nat)
  {
    k < |s.grants| && s.grants[k].isWrite && s.grants[k].addr == a && n <= s.grants[k].len
  }

  /** The map with grant `k` is in use, or on its way to being written back. */
  predicate Mapped(pc: Pc, k: nat)
  {
    (pc.Using? || pc.WritingBack?) && pc.grant == k
  }

  /** A map in use has not been written back; one that is being given up has if it was
      a write map, with the length accessed, and has not if it was a read map. */
  ghost predicate Holding(s: State, pc: Pc)
  {
    match pc
    case Using(a, l, w, k) => k < |s.grants| && s.grants[k] == Grant(a, l, w, !w) && Unwritten(s, k)
    case WritingBack(a, n, k) => Granted(s, k, a, n) && Unwritten(s, k)
    case Freeing(n, w, k) => Finished(s, n, w, k)
    case Releasing(n, w, k) => Finished(s, n, w, k)
    case _ => true
  }

  ghost predicate Finished(s: State, n: nat, w: bool, k: nat)
  {
    && k < |s.grants| && s.grants[k].isWrite == w
    && if w then Written(k, s.grants[k].addr, n) in s.written else Unwritten(s, k)
  }

  ghost predicate Unwritten(s: State, k: nat)
  {
    forall i {:trigger s.written[i]} | 0 <= i < |s.written| :: s.written[i].grant != k
  }

  /** The grant of a map that is over, or nearly so, was written back exactly if it was
      for writing. */
  ghost predicate Settled(s: State, k: nat)
    requires k < |s.grants|
  {
    || (exists t :: 0 <= t < |s.pcs| && Mapped(s.pcs[t], k))
    || (s.grants[k].isWrite <==> !Unwritten(s, k))
  }

  ghost predicate WriteInv(s: State)
  {
    && (forall t {:trigger s.pcs[t]} | 0 <= t < |s.pcs| :: Holding(s, s.pcs[t]))
    && (forall i {:trigger s.written[i]} | 0 <= i < |s.written| ::
          Granted(s, s.written[i].grant, s.written[i].addr, s.written[i].len))
    && (forall i, j {:trigger s.written[i], s.written[j]} | 0 <= i < j < |s.written| ::
          s.written[i].grant != s.written[j].grant)
    && (forall k {:trigger s.grants[k]} | 0 <= k < |s.grants| ::
          Settled(s, k) && s.grants[k].len <= PAGE_SIZE && (s.grants[k].filled <==> !s.grants[k].isWrite))
  }

  ghost predicate Inv(s: State)
  {
    OwnerInv(s) && LockInv(s) && WakeInv(s) && CountInv(s) && WriteInv(s)
  }

  lemma InitInv(s: State)
    requires Init(s)
    ensures Inv(s)
  {
  }

  // ---- What one step changes -------------------------------------------------

  ghost predicate Shape(s: State, s': State, t: Thread)
  {
    t < |s.pcs| == |s'.pcs| && s'.pcs == s.pcs[t := s'.pcs[t]]
  }

  /** Taking and leaving the buffer sets and clears the flag; only the owner
      touches the buffer. */
  ghost predicate OwnerChange(s: State, s': State, t: Thread)
    requires Shape(s, s', t)
  {
    && (Owner(s.pcs[t]) && !Owner(s'.pcs[t]) ==> !s'.inUse)
    && (!Owner(s.pcs[t]) && Owner(s'.pcs[t]) ==> !s.inUse && s'.inUse)
    && ((Owner(s.pcs[t]) <==> Owner(s'.pcs[t])) ==> s'.inUse == s.inUse)
    && (Owner(s.pcs[t]) || (s'.buffer == s.buffer && s'.addr == s.addr && s'.len == s.len))
    && Owned(s', s'.pcs[t]) && (!s'.inUse ==> !s'.buffer)
  }

  ghost predicate LockChange(s: State, s': State, t: Thread)
    requires Shape(s, s', t)
  {
    && (Holder(s.pcs[t]) && !Holder(s'.pcs[t]) ==> !s'.lock)
    && (!Holder(s.pcs[t]) && Holder(s'.pcs[t]) ==> !s.lock && s'.lock)
    && ((Holder(s.pcs[t]) <==> Holder(s'.pcs[t])) ==> s'.lock == s.lock)
  }

  /** A thread stops being bound to notify, and the buffer becomes free, only in
      ways that leave nobody waiting. */
  ghost predicate WakeChange(s: State, s': State, t: Thread)
    requires Shape(s, s', t)
  {
    || s'.clients == [] || s'.inUse || Notifier(s'.pcs[t])
    || (s.clients != [] && !s.inUse && !Notifier(s.pcs[t]))
  }

  ghost predicate Change(s: State, s': State, t: Thread)
  {
    Shape(s, s', t) && OwnerChange(s, s', t) && LockChange(s, s', t) && WakeChange(s, s', t)
  }

  lemma MapChange(s: State, s': State, t: Thread)
    requires t < |s.pcs| && MapStep(s, s', t) && Inv(s)
    ensures Change(s, s', t)
  {
    hide OwnerInv, LockInv, WakeInv, CountInv, WriteInv, WithoutFirst;
    OwnerFlag(s, t);
    LockFlag(s, t);
  }

  lemma UnmapChange(s: State, s': State, t: Thread)
    requires t < |s.pcs| && UnmapStep(s, s', t) && Inv(s)
    ensures Change(s, s', t)
  {
    hide OwnerInv, LockInv, WakeInv, CountInv, WriteInv, WithoutFirst;
    OwnerFlag(s, t);
    LockFlag(s, t);
  }

  lemma NotifyChange(s: State, s': State, t: Thread)
    requires t < |s.pcs| && NotifyStep(s, s', t) && Inv(s)
    ensures Change(s, s', t)
  {
    hide OwnerInv, LockInv, WakeInv, CountInv, WriteInv, WithoutFirst;
    OwnerFlag(s, t);
    LockFlag(s, t);
  }

  lemma RegisterChange(s: State, s': State, t: Thread)
    requires t < |s.pcs| && RegisterStep(s, s', t) && Inv(s)
    ensures Change(s, s', t)
  {
    hide OwnerInv, LockInv, WakeInv, CountInv, WriteInv, WithoutFirst;
    OwnerFlag(s, t);
    LockFlag(s, t);
  }

  lemma RegisteredChange(s: State, s': State, t: Thread)
    requires t < |s.pcs| && RegisteredStep(s, s', t) && Inv(s)
    ensures Change(s, s', t)
  {
    hide OwnerInv, LockInv, WakeInv, CountInv, WriteInv, WithoutFirst;
    OwnerFlag(s, t);
    LockFlag(s, t);
  }

  lemma UnregisterChange(s: State, s': State, t: Thread)
    requires t < |s.pcs| && UnregisterStep(s, s', t) && Inv(s)
    ensures Change(s, s', t)
  {
    hide OwnerInv, LockInv, WakeInv, CountInv, WriteInv, UnregisterStep;
    OwnerFlag(s, t);
    LockFlag(s, t);
    UnregisterEffect(s, s', t);
  }

  /** Withdrawing a client touches the list and its lock only. */
  lemma UnregisterEffect(s: State, s': State, t: Thread)
    requires t < |s.pcs| && UnregisterStep(s, s', t)
    ensures Shape(s, s', t) && LockChange(s, s', t)
    ensures !Owner(s.pcs[t]) && !Owner(s'.pcs[t]) && !Notifier(s.pcs[t]) && !Notifier(s'.pcs[t])
    ensures s'.inUse == s.inUse && s'.buffer == s.buffer && s'.addr == s.addr && s'.len == s.len
    ensures s.clients == [] ==> s'.clients == []
  {
    hide WithoutFirst;
    if s.pcs[t].Removing? {
      WithoutNone(s.pcs[t].client);
    }
  }

  lemma WithoutNone(c: Client)
    ensures WithoutFirst([], c) == []
  {
  }

  lemma OwnerFlag(s: State, t: Thread)
    requires t < |s.pcs| && OwnerInv(s)
    ensures Owner(s.pcs[t]) ==> s.inUse
    ensures Owned(s, s.pcs[t]) && (!s.inUse ==> !s.buffer)
  {
  }

  lemma LockFlag(s: State, t: Thread)
    requires t < |s.pcs| && LockInv(s)
    ensures Holder(s.pcs[t]) ==> s.lock
  {
  }

  lemma NotifiedCount(s: State)
    requires s.clients != [] && CountInv(s)
    ensures CountInv(Notified(s))
  {
    assert s.clients == [s.clients[0]] + s.clients[1..];
  }

  predicate SameCount(s: State, s': State)
  {
    s'.clients == s.clients && s'.registered == s.registered && s'.scheduled == s.scheduled && s'.removed == s.removed
  }

  ghost predicate Inserted(s: State, s': State)
  {
    exists c :: s'.clients == [c] + s.clients && s'.registered == s.registered + multiset{c}
      && s'.scheduled == s.scheduled && s'.removed == s.removed
  }

  ghost predicate Removed(s: State, s': State)
  {
    exists c :: s'.clients == WithoutFirst(s.clients, c) && s'.registered == s.registered && s'.scheduled == s.scheduled
      && s'.removed == if c in s.clients then s.removed + multiset{c} else s.removed
  }

  ghost predicate CountChange(s: State, s': State)
  {
    SameCount(s, s') || (s.clients != [] && s' == Notified(s)) || Inserted(s, s') || Removed(s, s')
  }

  lemma MapCount(s: State, s': State, t: Thread)
    requires t < |s.pcs| && MapStep(s, s', t)
    ensures CountChange(s, s')
  {
  }

  lemma UnmapCount(s: State, s': State, t: Thread)
    requires t < |s.pcs| && UnmapStep(s, s', t)
    ensures CountChange(s, s')
  {
  }

  lemma NotifyCount(s: State, s': State, t: Thread)
    requires t < |s.pcs| && NotifyStep(s, s', t)
    ensures CountChange(s, s')
  {
  }

  lemma RegisterCount(s: State, s': State, t: Thread)
    requires t < |s.pcs| && RegisterStep(s, s', t)
    ensures CountChange(s, s')
  {
  }

  lemma RegisteredCount(s: State, s': State, t: Thread)
    requires t < |s.pcs| && RegisteredStep(s, s', t)
    ensures CountChange(s, s')
  {
  }

  lemma UnregisterCount(s: State, s': State, t: Thread)
    requires t < |s.pcs| && UnregisterStep(s, s', t)
    ensures CountChange(s, s')
  {
  }

  /** Registered clients are waiting, scheduled or unregistered. */
  lemma ChangeCount(s: State, s': State)
    requires CountInv(s) && CountChange(s, s')
    ensures CountInv(s')
  {
    hide Notified;
    if SameCount(s, s') {
    } else if s.clients != [] && s' == Notified(s) {
      NotifiedCount(s);
    } else if Inserted(s, s') {
      var c :| s'.clients == [c] + s.clients && s'.registered == s.registered + multiset{c}
        && s'.scheduled == s.scheduled && s'.removed == s.removed;
      InsertedCount(s, c);
    } else {
      var c :| s'.clients == WithoutFirst(s.clients, c) && s'.registered == s.registered && s'.scheduled == s.scheduled
        && s'.removed == if c in s.clients then s.removed + multiset{c} else s.removed;
      RemovedCount(s, c);
    }
  }

  lemma InsertedCount(s: State, c: Client)
    requires CountInv(s)
    ensures s.registered + multiset{c} == multiset([c] + s.clients) + s.scheduled + s.removed
  {
  }

  lemma RemovedCount(s: State, c: Client)
    requires CountInv(s)
    ensures s.registered == multiset(WithoutFirst(s.clients, c)) + s.scheduled
      + (if c in s.clients then s.removed + multiset{c} else s.removed)
  {
  }

  // ---- Every step keeps the invariant ----------------------------------------

  lemma ChangeOwner(s: State, s': State, t: Thread)
    requires OwnerInv(s) && Shape(s, s', t) && OwnerChange(s, s', t)
    ensures OwnerInv(s')
  {
    forall a, b | 0 <= a < b < |s'.pcs| ensures !(Owner(s'.pcs[a]) && Owner(s'.pcs[b])) {
      assert !(Owner(s.pcs[a]) && Owner(s.pcs[b]));
    }
    if s'.inUse && !Owner(s'.pcs[t]) {
      var u :| 0 <= u < |s.pcs| && Owner(s.pcs[u]);
      assert Owner(s'.pcs[u]);
    }
    if u :| 0 <= u < |s'.pcs| && Owner(s'.pcs[u]) {
      assert u != t ==> Owner(s.pcs[u]);
    }
    forall u | 0 <= u < |s'.pcs| ensures Owned(s', s'.pcs[u]) {
      if u != t {
        assert Owned(s, s.pcs[u]);
        assert u < t ==> !(Owner(s.pcs[u]) && Owner(s.pcs[t]));
        assert t < u ==> !(Owner(s.pcs[t]) && Owner(s.pcs[u]));
      }
    }
  }

  lemma ChangeLock(s: State, s': State, t: Thread)
    requires LockInv(s) && Shape(s, s', t) && LockChange(s, s', t)
    ensures LockInv(s')
  {
    forall a, b | 0 <= a < b < |s'.pcs| ensures !(Holder(s'.pcs[a]) && Holder(s'.pcs[b])) {
      assert !(Holder(s.pcs[a]) && Holder(s.pcs[b]));
    }
    if s'.lock && !Holder(s'.pcs[t]) {
      var u :| 0 <= u < |s.pcs| && Holder(s.pcs[u]);
      assert Holder(s'.pcs[u]);
    }
    if u :| 0 <= u < |s'.pcs| && Holder(s'.pcs[u]) {
      assert u != t ==> Holder(s.pcs[u]);
    }
  }

  lemma ChangeWake(s: State, s': State, t: Thread)
    requires WakeInv(s) && Shape(s, s', t) && WakeChange(s, s', t)
    ensures WakeInv(s')
  {
    if s'.clients != [] && !s'.inUse && !Notifier(s'.pcs[t]) {
      var u :| 0 <= u < |s.pcs| && Notifier(s.pcs[u]);
      assert Notifier(s'.pcs[u]);
    }
  }

  /** Nothing is granted or written back, and no other grant is held: the thread keeps
      its grant until its map is settled. */
  ghost predicate SameWrites(s: State, s': State, t: Thread)
    requires Shape(s, s', t)
  {
    && s'.grants == s.grants && s'.written == s.written
    && Holding(s, s'.pcs[t])
    && forall k {:trigger Mapped(s.pcs[t], k)} | 0 <= k < |s.grants| && Mapped(s.pcs[t], k) ::
         Mapped(s'.pcs[t], k) || (s.grants[k].isWrite <==> !Unwritten(s, k))
  }

  lemma KeepWrites(s: State, s': State, t: Thread)
    requires WriteInv(s) && Shape(s, s', t) && SameWrites(s, s', t)
    ensures WriteInv(s')
  {
    forall u | 0 <= u < |s'.pcs| ensures Holding(s', s'.pcs[u]) {
      assert Holding(s, s.pcs[u]);
    }
    forall k | 0 <= k < |s'.grants| ensures Settled(s', k) {
      assert s.grants[k] == s'.grants[k];
      StillSettled(s, s', t, k);
    }
  }

  lemma StillSettled(s: State, s': State, t: Thread, k: nat)
    requires k < |s.grants| && Settled(s, k) && Shape(s, s', t) && SameWrites(s, s', t)
    ensures Settled(s', k)
  {
    if u :| 0 <= u < |s.pcs| && Mapped(s.pcs[u], k) {
      assert u != t ==> Mapped(s'.pcs[u], k);
      assert Mapped(s'.pcs[t], k) ==> 0 <= t < |s'.pcs|;
    }
  }

  lemma FillWrites(s: State, s': State, t: Thread)
    requires t < |s.pcs| && WriteInv(s) && s.pcs[t].Filling? && MapStep(s, s', t)
    ensures WriteInv(s')
  {
    var n := |s.grants|;
    forall i | 0 <= i < |s'.written|
      ensures s'.written[i].grant < |s.grants|
      ensures Granted(s', s'.written[i].grant, s'.written[i].addr, s'.written[i].len)
    {
      assert Granted(s, s.written[i].grant, s.written[i].addr, s.written[i].len);
    }
    forall u | 0 <= u < |s'.pcs| ensures Holding(s', s'.pcs[u]) {
      if u != t { assert Holding(s, s.pcs[u]); }
    }
    forall k | 0 <= k < |s'.grants|
      ensures Settled(s', k) && s'.grants[k].len <= PAGE_SIZE && (s'.grants[k].filled <==> !s'.grants[k].isWrite)
    {
      if k == n {
        assert Mapped(s'.pcs[t], k);
      } else {
        assert s'.grants[k] == s.grants[k] && Settled(s, k);
        if u :| 0 <= u < |s.pcs| && Mapped(s.pcs[u], k) { assert Mapped(s'.pcs[u], k); }
      }
    }
  }

  lemma BackWrites(s: State, s': State, t: Thread)
    requires t < |s.pcs| && WriteInv(s) && OwnerInv(s) && s.pcs[t].WritingBack? && UnmapStep(s, s', t)
    ensures WriteInv(s')
  {
    assert Holding(s, s.pcs[t]) && Owned(s, s.pcs[t]);
    var last := |s.written|;
    assert s'.written[last] == Written(s.pcs[t].grant, s.addr, s.pcs[t].access);
    forall i | 0 <= i < |s.written| ensures Granted(s', s'.written[i].grant, s'.written[i].addr, s'.written[i].len) {
      assert Granted(s, s.written[i].grant, s.written[i].addr, s.written[i].len);
    }
    forall u | 0 <= u < |s'.pcs| ensures Holding(s', s'.pcs[u]) {
      if u != t {
        assert Holding(s, s.pcs[u]);
        NotBoth(s, t, u);
      }
    }
    forall k | 0 <= k < |s'.grants| ensures Settled(s', k) {
      assert s.grants[k] == s'.grants[k];
      BackSettled(s, s', t, k);
    }
  }

  /** Writing back settles the grant of the map and leaves all others as they were. */
  lemma BackSettled(s: State, s': State, t: Thread, k: nat)
    requires t < |s.pcs| && k < |s.grants| && Settled(s, k) && s.pcs[t].WritingBack? && UnmapStep(s, s', t)
    requires Granted(s, s.pcs[t].grant, s.addr, s.pcs[t].access)
    ensures Settled(s', k)
  {
    var last := |s.written|;
    assert s'.written[last].grant == s.pcs[t].grant;
    if k != s.pcs[t].grant {
      if u :| 0 <= u < |s.pcs| && Mapped(s.pcs[u], k) {
        assert Mapped(s'.pcs[u], k);
      } else if !Unwritten(s, k) {
        var i :| 0 <= i < |s.written| && s.written[i].grant == k;
        assert s'.written[i].grant == k;
      }
    }
  }

  lemma NotBoth(s: State, t: Thread, u: Thread)
    requires OwnerInv(s) && t < |s.pcs| && u < |s.pcs| && t != u
    ensures !(Owner(s.pcs[t]) && Owner(s.pcs[u]))
  {
  }

  lemma MapWrites(s: State, s': State, t: Thread)
    requires t < |s.pcs| && WriteInv(s) && MapStep(s, s', t)
    ensures WriteInv(s')
  {
    hide WriteInv;
    if s.pcs[t].Filling? { FillWrites(s, s', t); } else { KeepWrites(s, s', t); }
  }

  lemma UnmapWrites(s: State, s': State, t: Thread)
    requires t < |s.pcs| && WriteInv(s) && OwnerInv(s) && UnmapStep(s, s', t)
    ensures WriteInv(s')
  {
    hide OwnerInv, Settled, Unwritten;
    assert Holding(s, s.pcs[t]);
    hide WriteInv;
    if s.pcs[t].WritingBack? { BackWrites(s, s', t); } else { KeepWrites(s, s', t); }
  }

  lemma NotifyWrites(s: State, s': State, t: Thread)
    requires t < |s.pcs| && WriteInv(s) && NotifyStep(s, s', t)
    ensures WriteInv(s')
  {
    hide WriteInv, WithoutFirst;
    KeepWrites(s, s', t);
  }

  lemma RegisterWrites(s: State, s': State, t: Thread)
    requires t < |s.pcs| && WriteInv(s) && RegisterStep(s, s', t)
    ensures WriteInv(s')
  {
    hide WriteInv, WithoutFirst;
    KeepWrites(s, s', t);
  }

  lemma RegisteredWrites(s: State, s': State, t: Thread)
    requires t < |s.pcs| && WriteInv(s) && RegisteredStep(s, s', t)
    ensures WriteInv(s')
  {
    hide WriteInv, WithoutFirst;
    KeepWrites(s, s', t);
  }

  lemma UnregisterWrites(s: State, s': State, t: Thread)
    requires t < |s.pcs| && WriteInv(s) && UnregisterStep(s, s', t)
    ensures WriteInv(s')
  {
    hide WriteInv, WithoutFirst;
    KeepWrites(s, s', t);
  }

  lemma StepInv(s: State, s': State, t: Thread)
    requires t < |s.pcs| && Inv(s) && Step(s, s', t)
    ensures Inv(s')
  {
    if MapStep(s, s', t) {
      MapChange(s, s', t);
      MapCount(s, s', t);
      MapWrites(s, s', t);
    } else if UnmapStep(s, s', t) {
      UnmapChange(s, s', t);
      UnmapCount(s, s', t);
      UnmapWrites(s, s', t);
    } else if NotifyStep(s, s', t) {
      NotifyChange(s, s', t);
      NotifyCount(s, s', t);
      NotifyWrites(s, s', t);
    } else if RegisterStep(s, s', t) {
      RegisterChange(s, s', t);
      RegisterCount(s, s', t);
      RegisterWrites(s, s', t);
    } else if RegisteredStep(s, s', t) {
      RegisteredChange(s, s', t);
      RegisteredCount(s, s', t);
      RegisteredWrites(s, s', t);
    } else {
      UnregisterChange(s, s', t);
      UnregisterCount(s, s', t);
      UnregisterWrites(s, s', t);
    }
    ChangeOwner(s, s', t);
    ChangeLock(s, s', t);
    ChangeWake(s, s', t);
    ChangeCount(s, s');
  }

  lemma {:induction false} RunInv(states: seq<State>)
    requires Run(states)
    ensures Inv(states[|states| - 1])
    decreases |states|
  {
    hide Step, Inv, Init;
    var n := |states| - 1;
    if n == 0 {
      InitInv(states[0]);
    } else {
      var front := states[..n];
      forall i | 0 < i < |front| ensures Next(front[i - 1], front[i]) {
        assert states[i] == front[i];
      }
      RunInv(front);
      assert Next(states[n - 1], states[n]);
      var t: Thread :| t < |states[n - 1].pcs| && Step(states[n - 1], states[n], t);
      StepInv(states[n - 1], states[n], t);
    }
  }

  // ---- What follows in every reachable state ---------------------------------

  /** Two maps never share the buffer, and what an unmap writes back goes to the
      address its own map asked for and comes from within the buffer. */
  lemma OneOwner(states: seq<State>, t: Thread, u: Thread)
    requires Run(states)
    ensures var s := states[|states| - 1];
      && (t < |s.pcs| && u < |s.pcs| && Owner(s.pcs[t]) && Owner(s.pcs[u]) ==> t == u)
      && (t < |s.pcs| && s.pcs[t].WritingBack? ==> s.buffer && s.addr == s.pcs[t].addr && s.pcs[t].access <= s.len)
  {
    RunInv(states);
  }

  /** Whatever was written back went to the address a write map had asked for, within
      the length it was granted, and each map was written back at most once. */
  lemma WritesBelong(states: seq<State>, i: nat, j: nat)
    requires Run(states)
    requires i < |states[|states| - 1].written|
    ensures var s := states[|states| - 1];
      && Granted(s, s.written[i].grant, s.written[i].addr, s.written[i].len)
      && (j < |s.written| && j != i ==> s.written[i].grant != s.written[j].grant)
  {
    RunInv(states);
  }

  /** A write map that gives up the buffer has been written back, exactly once, to its
      own address with the length its user accessed; a read map was not written back
      and was filled.  Nobody is granted more than a page. */
  lemma MapSettled(states: seq<State>, t: Thread) returns (i: nat)
    requires Run(states) && t < |states[|states| - 1].pcs| && states[|states| - 1].pcs[t].Releasing?
    ensures var s := states[|states| - 1];
      var pc := s.pcs[t];
      && pc.grant < |s.grants| && s.grants[pc.grant].isWrite == pc.isWrite && s.grants[pc.grant].len <= PAGE_SIZE
      && (s.grants[pc.grant].filled <==> !pc.isWrite)
      && (pc.isWrite ==>
            && i < |s.written| && s.written[i] == Written(pc.grant, s.grants[pc.grant].addr, pc.access)
            && forall j | 0 <= j < |s.written| && j != i :: s.written[j].grant != pc.grant)
      && (!pc.isWrite ==> forall j | 0 <= j < |s.written| :: s.written[j].grant != pc.grant)
  {
    RunInv(states);
    var s := states[|states| - 1];
    var pc := s.pcs[t];
    assert Holding(s, pc) && s.grants[pc.grant].len <= PAGE_SIZE;
    i := 0;
    if pc.isWrite {
      i :| 0 <= i < |s.written| && s.written[i] == Written(pc.grant, s.grants[pc.grant].addr, pc.access);
    }
  }

  /** Once the buffer is free, every write map there ever was has been written back and
      no read map has. */
  lemma AllSettled(states: seq<State>, k: nat)
    requires Run(states) && !states[|states| - 1].inUse && k < |states[|states| - 1].grants|
    ensures var s := states[|states| - 1];
      s.grants[k].isWrite <==> exists i :: 0 <= i < |s.written| && s.written[i].grant == k
  {
    RunInv(states);
    var s := states[|states| - 1];
    assert Settled(s, k) by { assert s.grants[k] == s.grants[k]; }
  }

  /** With the list lock free, a waiting client implies that the buffer is in use or
      that the thread that released it is about to notify. */
  lemma NoLostNotification(states: seq<State>) returns (t: Thread)
    requires Run(states) && !states[|states| - 1].lock && states[|states| - 1].clients != []
    ensures var s := states[|states| - 1];
      t < |s.pcs| && ((s.inUse && Owner(s.pcs[t])) || s.pcs[t].NotifyLocking?)
  {
    RunInv(states);
    var s := states[|states| - 1];
    if s.inUse {
      t :| 0 <= t < |s.pcs| && Owner(s.pcs[t]);
    } else {
      t :| 0 <= t < |s.pcs| && Notifier(s.pcs[t]);
    }
  }

  /** When nobody maps or is busy with the list, nobody waits: every client that
      registered was scheduled or unregistered, each as often as it registered. */
  lemma QuietMeansServed(states: seq<State>)
    requires Run(states)
    requires forall t {:trigger states[|states| - 1].pcs[t]} | 0 <= t < |states[|states| - 1].pcs| ::
      states[|states| - 1].pcs[t].Out?
    ensures var s := states[|states| - 1];
      s.clients == [] && s.registered == s.scheduled + s.removed && !s.inUse && !s.buffer
  {
    RunInv(states);
  }
}
