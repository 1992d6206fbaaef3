/** Progress of maps, unmaps and the clients that wait for them: what is begun ends,
    however the threads are scheduled, and each operation does what it is for. */
module BounceProgress {
  import opened Helpers
  import opened BounceBuffer

  // ---- Every operation ends ----------------------------------------------------

  /** An upper bound on the steps a thread takes before it is outside, the rounds of
      its loop over the clients aside. */
  function Rank(pc: Pc): nat
  {
    match pc
    case Out => 0
    case Filling(_, _, _) => 8
    case Using(_, _, _, _) => 7
    case WritingBack(_, _, _) => 6
    case Freeing(_, _, _) => 5
    case Releasing(_, _, _) => 4
    case NotifyLocking => 3
    case Notifying => 2
    case NotifyUnlocking => 1
    case RegisterLocking(_) => 6
    case Inserting(_) => 5
    case ReadingInUse => 3
    case RegisterNotifying => 2
    case RegisterUnlocking => 1
    case UnregisterLocking(_) => 3
    case Removing(_) => 2
    case UnregisterUnlocking => 1
  }

  function Ranks(pcs: seq<Pc>): nat
  {
    if pcs == [] then 0 else Ranks(pcs[..|pcs| - 1]) + Rank(pcs[|pcs| - 1])
  }

  /** What is left to do if no operation is begun any more. */
  function Work(s: State): nat
  {
    Ranks(s.pcs) + |s.clients|
  }

  lemma {:induction false} RanksChange(pcs: seq<Pc>, t: Thread, pc: Pc)
    requires t < |pcs|
    ensures Ranks(pcs[t := pc]) == Ranks(pcs) - Rank(pcs[t]) + Rank(pc)
  {
    var n := |pcs| - 1;
    if t == n {
      assert pcs[t := pc][..n] == pcs[..n];
    } else {
      RanksChange(pcs[..n], t, pc);
      assert pcs[t := pc][..n] == pcs[..n][t := pc];
    }
  }

  lemma WithoutFirstLength(s: seq<Client>, c: Client)
    ensures |WithoutFirst(s, c)| <= |s|
  {
    assert |multiset(WithoutFirst(s, c))| == |WithoutFirst(s, c)| && |multiset(s)| == |s|;
  }

  /** Each step of a thread inside an operation leaves less to do, whatever it is. */
  lemma StepLowers(s: State, s': State, t: Thread)
    requires t < |s.pcs| && !s.pcs[t].Out? && Step(s, s', t)
    ensures |s'.pcs| == |s.pcs| && Work(s') < Work(s)
  {
    hide MapStep, UnmapStep, NotifyStep, RegisterStep, RegisteredStep, UnregisterStep, Ranks;
    if MapStep(s, s', t) { MapLowers(s, s', t); }
    else if UnmapStep(s, s', t) { UnmapLowers(s, s', t); }
    else if NotifyStep(s, s', t) { NotifyLowers(s, s', t); }
    else if RegisterStep(s, s', t) { RegisterLowers(s, s', t); }
    else if RegisteredStep(s, s', t) { RegisteredLowers(s, s', t); }
    else { UnregisterLowers(s, s', t); }
    RanksChange(s.pcs, t, s'.pcs[t]);
  }

  /** Only the thread moves, and it has less left to do. */
  ghost predicate Lowered(s: State, s': State, t: Thread)
  {
    && t < |s.pcs| == |s'.pcs| && s'.pcs == s.pcs[t := s'.pcs[t]]
    && Rank(s'.pcs[t]) + |s'.clients| < Rank(s.pcs[t]) + |s.clients|
  }

  lemma MapLowers(s: State, s': State, t: Thread)
    requires t < |s.pcs| && !s.pcs[t].Out? && MapStep(s, s', t)
    ensures Lowered(s, s', t)
  {
  }

  lemma UnmapLowers(s: State, s': State, t: Thread)
    requires t < |s.pcs| && UnmapStep(s, s', t)
    ensures Lowered(s, s', t)
  {
  }

  lemma NotifyLowers(s: State, s': State, t: Thread)
    requires t < |s.pcs| && NotifyStep(s, s', t)
    ensures Lowered(s, s', t)
  {
  }

  lemma RegisterLowers(s: State, s': State, t: Thread)
    requires t < |s.pcs| && !s.pcs[t].Out? && RegisterStep(s, s', t)
    ensures Lowered(s, s', t)
  {
  }

  lemma RegisteredLowers(s: State, s': State, t: Thread)
    requires t < |s.pcs| && RegisteredStep(s, s', t)
    ensures Lowered(s, s', t)
  {
  }

  lemma UnregisterLowers(s: State, s': State, t: Thread)
    requires t < |s.pcs| && !s.pcs[t].Out? && UnregisterStep(s, s', t)
    ensures Lowered(s, s', t)
  {
    hide WithoutFirst;
    if s.pcs[t].Removing? {
      WithoutFirstLength(s.clients, s.pcs[t].client);
    }
  }

  /** Points that wait for the list lock. */
  predicate NeedsLock(pc: Pc)
  {
    pc.NotifyLocking? || pc.RegisterLocking? || pc.UnregisterLocking?
  }

  predicate CanMove(s: State, t: Thread)
    requires t < |s.pcs|
  {
    !s.pcs[t].Out? && (NeedsLock(s.pcs[t]) ==> !s.lock)
  }

  /** The step of a thread that can move; `n` is how much of a map was accessed. */
  function Move(s: State, t: Thread, n: nat): State
    requires t < |s.pcs| && CanMove(s, t)
  {
    match s.pcs[t]
    case Filling(a, l, w) =>
      var granted := Min(l, PAGE_SIZE);
      At(s, t, Using(a, granted, w, |s.grants|)).(buffer := true, addr := a, len := granted,
                                                  grants := s.grants + [Grant(a, granted, w, !w)])
    case Using(a, l, w, k) => At(s, t, if w then WritingBack(a, Min(n, l), k) else Freeing(Min(n, l), false, k))
    case WritingBack(_, n, k) => At(s, t, Freeing(n, true, k)).(written := s.written + [Written(k, s.addr, n)])
    case Freeing(n, w, k) => At(s, t, Releasing(n, w, k)).(buffer := false)
    case Releasing(_, _, _) => At(s, t, NotifyLocking).(inUse := false)
    case NotifyLocking => At(s, t, Notifying).(lock := true)
    case Notifying => if s.clients == [] then At(s, t, NotifyUnlocking) else Notified(s)
    case NotifyUnlocking => At(s, t, Out).(lock := false)
    case RegisterLocking(c) => At(s, t, Inserting(c)).(lock := true)
    case Inserting(c) =>
      At(s, t, ReadingInUse).(clients := [c] + s.clients, registered := s.registered + multiset{c})
    case ReadingInUse => At(s, t, if s.inUse then RegisterUnlocking else RegisterNotifying)
    case RegisterNotifying => if s.clients == [] then At(s, t, RegisterUnlocking) else Notified(s)
    case RegisterUnlocking => At(s, t, Out).(lock := false)
    case UnregisterLocking(c) => At(s, t, Removing(c)).(lock := true)
    case Removing(c) =>
      At(s, t, UnregisterUnlocking).(clients := WithoutFirst(s.clients, c),
        removed := if c in s.clients then s.removed + multiset{c} else s.removed)
    case UnregisterUnlocking => At(s, t, Out).(lock := false)
  }

  lemma HasStep(s: State, t: Thread, n: nat)
    requires t < |s.pcs| && CanMove(s, t)
    ensures Step(s, Move(s, t, n), t)
  {
    hide WithoutFirst;
    var s' := Move(s, t, n);
    if s.pcs[t].Using? { assert UnmapStep(s, s', t); }
  }

  ghost predicate AllOut(s: State)
  {
    forall t {:trigger s.pcs[t]} | 0 <= t < |s.pcs| :: s.pcs[t].Out?
  }

  /** While some thread is inside an operation, some thread can move. */
  lemma SomeoneCanMove(s: State) returns (t: Thread)
    requires Inv(s) && !AllOut(s)
    ensures t < |s.pcs| && CanMove(s, t)
  {
    if s.lock {
      t :| 0 <= t < |s.pcs| && Holder(s.pcs[t]);
    } else {
      t :| 0 <= t < |s.pcs| && !s.pcs[t].Out?;
    }
  }

  /** From `i` on, no operation is begun. */
  ghost predicate NothingNew(states: seq<State>, i: nat)
  {
    forall j {:trigger states[j]} | i <= j < |states| - 1 :: Busy(states[j], states[j + 1])
  }

  /** A step inside an operation. */
  ghost predicate Busy(s: State, s': State)
  {
    exists t: Thread :: t < |s.pcs| && !s.pcs[t].Out? && Step(s, s', t)
  }

  /** However threads are scheduled, without new operations a run goes on for at most
      as many steps as there is work left. */
  lemma {:induction false} WorkBounds(states: seq<State>, i: nat)
    requires i < |states| && NothingNew(states, i)
    ensures |states| - 1 - i <= Work(states[i])
    decreases |states| - i
  {
    hide Step, Work;
    if i + 1 < |states| {
      assert Busy(states[i], states[i + 1]);
      var t: Thread :| t < |states[i].pcs| && !states[i].pcs[t].Out? && Step(states[i], states[i + 1], t);
      StepLowers(states[i], states[i + 1], t);
      WorkBounds(states, i + 1);
    }
  }

  /** Every run can be completed to one that leaves nobody inside an operation: with
      WorkBounds, every one that goes on as long as somebody can move is. */
  lemma {:induction false} Completes(states: seq<State>) returns (longer: seq<State>)
    requires |states| > 0 && Run(states)
    ensures |longer| > 0 && Run(longer) && states <= longer && AllOut(longer[|longer| - 1])
    decreases Work(states[|states| - 1])
  {
    hide Step, Inv, Run, Work, Move;
    var s := states[|states| - 1];
    if AllOut(s) {
      longer := states;
    } else {
      RunInv(states);
      var t := SomeoneCanMove(s);
      HasStep(s, t, 0);
      StepLowers(s, Move(s, t, 0), t);
      longer := Completes(Longer(states, Move(s, t, 0), t));
    }
  }

  /** A run with one more step. */
  ghost function Longer(states: seq<State>, s': State, t: Thread): (r: seq<State>)
    requires Run(states) && t < |states[|states| - 1].pcs| && Step(states[|states| - 1], s', t)
    ensures |states| > 0 && Run(r) && states <= r && |r| == |states| + 1 && r[|r| - 1] == s'
  {
    var r := states + [s'];
    assert forall i {:trigger r[i]} | 0 < i < |r| :: Next(r[i - 1], r[i]) by {
      forall i | 0 < i < |r| ensures Next(r[i - 1], r[i]) {
        if i < |states| { assert Next(states[i - 1], states[i]); }
      }
    }
    r
  }

  // ---- What the operations do ----------------------------------------------------

  ghost predicate Path(states: seq<State>)
  {
    |states| > 0 && forall i {:trigger states[i]} | 0 < i < |states| :: Next(states[i - 1], states[i])
  }

  /** Steps lead from one state to the other. */
  ghost predicate Leads(s: State, s': State)
  {
    exists states :: Path(states) && states[0] == s && states[|states| - 1] == s'
  }

  lemma LeadsOn(s: State, s': State, s'': State, t: Thread)
    requires Leads(s, s') && t < |s'.pcs| && Step(s', s'', t)
    ensures Leads(s, s'')
  {
    hide Step;
    var states :| Path(states) && states[0] == s && states[|states| - 1] == s';
    var longer := states + [s''];
    forall i | 0 < i < |longer| ensures Next(longer[i - 1], longer[i]) {
      if i < |states| { assert Next(states[i - 1], states[i]); }
    }
    assert Path(longer);
  }

  lemma LeadsHere(s: State)
    ensures Leads(s, s)
  {
    assert Path([s]);
  }

  lemma LeadsThrough(s: State, s': State, s'': State)
    requires Leads(s, s') && Leads(s', s'')
    ensures Leads(s, s'')
  {
    hide Step;
    var p :| Path(p) && p[0] == s && p[|p| - 1] == s';
    var q :| Path(q) && q[0] == s' && q[|q| - 1] == s'';
    var r := p + q[1..];
    forall i | 0 < i < |r| ensures Next(r[i - 1], r[i]) {
      if i < |p| { assert Next(p[i - 1], p[i]); } else { assert Next(q[i - |p|], q[i - |p| + 1]); }
    }
    assert Path(r);
  }

  /** Where steps lead to from a state of a run, the run can go. */
  lemma LeadsRun(states: seq<State>, s': State) returns (longer: seq<State>)
    requires Run(states) && Leads(states[|states| - 1], s')
    ensures Run(longer) && states <= longer && longer[|longer| - 1] == s'
  {
    hide Step;
    var q :| Path(q) && q[0] == states[|states| - 1] && q[|q| - 1] == s';
    longer := states + q[1..];
    var n := |states|;
    forall i | 0 < i < |longer| ensures Next(longer[i - 1], longer[i]) {
      if i < n { assert Next(states[i - 1], states[i]); } else { assert Next(q[i - n], q[i - n + 1]); }
    }
  }

  lemma Goes(s: State, s': State, t: Thread, n: nat)
    requires Leads(s, s') && t < |s'.pcs| && CanMove(s', t)
    ensures Leads(s, Move(s', t, n))
  {
    HasStep(s', t, n);
    LeadsOn(s, s', Move(s', t, n), t);
  }

  /** A map of a free buffer followed by its unmap: memory is read once for a read map,
      and written once, with the length accessed, for a write map; at most a page is
      granted. */
  lemma MapUnmap(s: State, t: Thread, a: nat, l: nat, isWrite: bool, n: nat) returns (s': State)
    requires t < |s.pcs| && s.pcs[t].Out? && !s.inUse && n <= l && n <= 4096
    ensures Leads(s, s')
    ensures s'.grants == s.grants + [Grant(a, if l < 4096 then l else 4096, isWrite, !isWrite)]
    ensures s'.written == if isWrite then s.written + [Written(|s.grants|, a, n)] else s.written
    ensures s' == s.(pcs := s.pcs[t := NotifyLocking], addr := s'.addr, len := s'.len, buffer := false,
                     grants := s'.grants, written := s'.written)
  {
    hide Leads, UnmapStep, NotifyStep, RegisterStep, RegisteredStep, UnregisterStep;
    var s1 := At(s, t, Filling(a, l, isWrite)).(inUse := true);
    assert MapStep(s, s1, t);
    LeadsHere(s);
    LeadsOn(s, s, s1, t);
    var granted := Min(l, PAGE_SIZE);
    var s2 := At(s1, t, Using(a, granted, isWrite, |s.grants|)).(buffer := true, addr := a, len := granted,
                                                                 grants := s.grants + [Grant(a, granted, isWrite,
                                                                                             !isWrite)]);
    assert MapStep(s1, s2, t);
    LeadsOn(s, s1, s2, t);
    s' := Unmap(s2, t, n);
    LeadsThrough(s, s2, s');
    assert s'.pcs == s.pcs[t := NotifyLocking];
  }

  lemma Unmap(s: State, t: Thread, n: nat) returns (s': State)
    requires t < |s.pcs| && s.pcs[t].Using? && n <= s.pcs[t].len
    ensures Leads(s, s')
    ensures s' == s.(pcs := s.pcs[t := NotifyLocking], buffer := false, inUse := false,
      written := if s.pcs[t].isWrite then s.written + [Written(s.pcs[t].grant, s.addr, n)] else s.written)
  {
    hide Leads, MapStep, NotifyStep, RegisterStep, RegisteredStep, UnregisterStep;
    var s1 := Finish(s, t, n);
    var s2 := At(s1, t, Releasing(n, s.pcs[t].isWrite, s.pcs[t].grant)).(buffer := false);
    assert UnmapStep(s1, s2, t);
    LeadsOn(s, s1, s2, t);
    s' := At(s2, t, NotifyLocking).(inUse := false);
    assert UnmapStep(s2, s', t);
    LeadsOn(s, s2, s', t);
    assert s'.pcs == s.pcs[t := NotifyLocking];
  }

  lemma Finish(s: State, t: Thread, n: nat) returns (s': State)
    requires t < |s.pcs| && s.pcs[t].Using? && n <= s.pcs[t].len
    ensures Leads(s, s')
    ensures s' == At(s, t, Freeing(n, s.pcs[t].isWrite, s.pcs[t].grant)).(
      written := if s.pcs[t].isWrite then s.written + [Written(s.pcs[t].grant, s.addr, n)] else s.written)
  {
    hide Leads, MapStep, NotifyStep, RegisterStep, RegisteredStep, UnregisterStep;
    var Using(a, l, w, k) := s.pcs[t];
    s' := At(s, t, if w then WritingBack(a, n, k) else Freeing(n, false, k));
    assert UnmapStep(s, s', t);
    LeadsHere(s);
    LeadsOn(s, s, s', t);
    if w {
      var s1 := s';
      s' := At(s1, t, Freeing(n, true, k)).(written := s.written + [Written(k, s.addr, n)]);
      assert UnmapStep(s1, s', t);
      LeadsOn(s, s1, s', t);
    }
  }

  /** The loop over the clients schedules each of them once. */
  lemma {:induction false} ServeAll(s: State, t: Thread)
    requires t < |s.pcs| && (s.pcs[t].RegisterNotifying? || s.pcs[t].Notifying?)
    ensures Leads(s, Served(s, t))
    decreases |s.clients|
  {
    hide Step, Leads, Served, Notified;
    ServeRound(s, t);
    if s.clients != [] {
      ServedNext(s, t);
      ServeAll(Notified(s), t);
      LeadsThrough(s, Notified(s), Served(Notified(s), t));
    }
  }

  lemma ServeRound(s: State, t: Thread)
    requires t < |s.pcs| && (s.pcs[t].RegisterNotifying? || s.pcs[t].Notifying?)
    ensures Leads(s, if s.clients == [] then Served(s, t) else Notified(s))
  {
    hide Leads, MapStep, UnmapStep, RegisterStep, UnregisterStep;
    var s' := if s.clients == [] then Served(s, t) else Notified(s);
    assert s.clients == [] ==> s.scheduled + multiset(s.clients) == s.scheduled;
    LeadsHere(s);
    LeadsOn(s, s, s', t);
  }

  lemma ServedNext(s: State, t: Thread)
    requires t < |s.pcs| && s.clients != []
    ensures |Notified(s).clients| < |s.clients| && Notified(s).pcs == s.pcs
    ensures Served(Notified(s), t) == Served(s, t)
  {
    assert s.clients == [s.clients[0]] + s.clients[1..];
    assert s.scheduled + multiset{s.clients[0]} + multiset(s.clients[1..]) == s.scheduled + multiset(s.clients);
  }

  function Served(s: State, t: Thread): State
    requires t < |s.pcs|
  {
    At(s, t, if s.pcs[t].Notifying? then NotifyUnlocking else RegisterUnlocking).(
      clients := [], scheduled := s.scheduled + multiset(s.clients))
  }

  /** The end of an unmap with the list unlocked: everybody who waits is scheduled. */
  lemma Notify(s: State, t: Thread)
    requires t < |s.pcs| && s.pcs[t].NotifyLocking? && !s.lock
    ensures Leads(s, s.(pcs := s.pcs[t := Out], clients := [], scheduled := s.scheduled + multiset(s.clients)))
  {
    hide Step, Leads;
    LeadsHere(s);
    Goes(s, s, t, 0);
    var s1 := Move(s, t, 0);
    ServeAll(s1, t);
    LeadsThrough(s, s1, Served(s1, t));
    Goes(s, Served(s1, t), t, 0);
    assert s.pcs[t := Notifying][t := NotifyUnlocking][t := Out] == s.pcs[t := Out];
  }

  /** A registration with the list unlocked: if the buffer is in use the client waits
      before all others, otherwise everybody who waits is scheduled, the client too. */
  lemma Register(s: State, t: Thread, c: Client)
    requires t < |s.pcs| && s.pcs[t].Out? && !s.lock
    ensures Leads(s, s.(
      clients := if s.inUse then [c] + s.clients else [], registered := s.registered + multiset{c},
      scheduled := if s.inUse then s.scheduled else s.scheduled + multiset([c] + s.clients)))
  {
    hide Step, Leads, Move;
    var s3 := Insert(s, t, c);
    Look(s3, t);
    var s' := Looked(s3, t);
    LeadsThrough(s, s3, s');
    assert s.pcs[t := ReadingInUse][t := Out] == s.pcs;
    assert s' == s.(
      clients := if s.inUse then [c] + s.clients else [], registered := s.registered + multiset{c},
      scheduled := if s.inUse then s.scheduled else s.scheduled + multiset([c] + s.clients));
  }

  lemma Insert(s: State, t: Thread, c: Client) returns (s': State)
    requires t < |s.pcs| && s.pcs[t].Out? && !s.lock
    ensures Leads(s, s')
    ensures s' == At(s, t, ReadingInUse).(lock := true, clients := [c] + s.clients,
                                          registered := s.registered + multiset{c})
  {
    hide Leads, MapStep, UnmapStep, NotifyStep, RegisteredStep, UnregisterStep;
    var s1 := At(s, t, RegisterLocking(c));
    assert RegisterStep(s, s1, t);
    LeadsHere(s);
    LeadsOn(s, s, s1, t);
    var s2 := At(s1, t, Inserting(c)).(lock := true);
    assert RegisterStep(s1, s2, t);
    LeadsOn(s, s1, s2, t);
    s' := At(s2, t, ReadingInUse).(clients := [c] + s.clients, registered := s.registered + multiset{c});
    assert RegisterStep(s2, s', t);
    LeadsOn(s, s2, s', t);
  }

  /** What a registration does once its client is in the list. */
  function Looked(s: State, t: Thread): State
    requires t < |s.pcs|
  {
    At(s, t, Out).(lock := false, clients := if s.inUse then s.clients else [],
      scheduled := if s.inUse then s.scheduled else s.scheduled + multiset(s.clients))
  }

  lemma Look(s: State, t: Thread)
    requires t < |s.pcs| && s.pcs[t].ReadingInUse?
    ensures Leads(s, Looked(s, t))
  {
    hide Leads, MapStep, UnmapStep, NotifyStep, RegisterStep, UnregisterStep;
    var s1 := At(s, t, if s.inUse then RegisterUnlocking else RegisterNotifying);
    assert RegisteredStep(s, s1, t);
    LeadsHere(s);
    LeadsOn(s, s, s1, t);
    var s2 := if s.inUse then s1 else Served(s1, t);
    if !s.inUse {
      ServeAll(s1, t);
      LeadsThrough(s, s1, s2);
    }
    var s' := At(s2, t, Out).(lock := false);
    assert RegisteredStep(s2, s', t);
    LeadsOn(s, s2, s', t);
    assert s'.pcs == s.pcs[t := Out];
    assert s' == Looked(s, t);
  }

  /** Withdrawing a registration with the list unlocked removes the client once, if it
      waits, and changes nothing else. */
  lemma Unregister(s: State, t: Thread, c: Client) returns (s': State)
    requires t < |s.pcs| && s.pcs[t].Out? && !s.lock
    ensures Leads(s, s')
    ensures s' == s.(clients := s'.clients, removed := s'.removed)
    ensures multiset(s'.clients) == multiset(s.clients) - multiset{c}
    ensures s'.removed == s.removed + (multiset(s.clients) - multiset(s'.clients))
  {
    hide Leads, WithoutFirst, MapStep, UnmapStep, NotifyStep, RegisterStep, RegisteredStep, UnregisterStep;
    var s2 := At(s, t, Removing(c)).(lock := true);
    FindOut(s, t, c);
    s' := TakeOut(s2, t, c);
    LeadsThrough(s, s2, s');
    assert s'.pcs == s.pcs;
  }

  lemma FindOut(s: State, t: Thread, c: Client)
    requires t < |s.pcs| && s.pcs[t].Out? && !s.lock
    ensures Leads(s, At(s, t, Removing(c)).(lock := true))
  {
    hide Leads, MapStep, UnmapStep, NotifyStep, RegisterStep, RegisteredStep;
    var s1 := At(s, t, UnregisterLocking(c));
    assert UnregisterStep(s, s1, t);
    LeadsHere(s);
    LeadsOn(s, s, s1, t);
    var s2 := At(s1, t, Removing(c)).(lock := true);
    assert UnregisterStep(s1, s2, t);
    LeadsOn(s, s1, s2, t);
    assert s2.pcs == s.pcs[t := Removing(c)];
  }

  lemma TakeOut(s: State, t: Thread, c: Client) returns (s': State)
    requires t < |s.pcs| && s.pcs[t] == Removing(c)
    ensures Leads(s, s')
    ensures s' == s.(pcs := s.pcs[t := Out], lock := false, clients := s'.clients, removed := s'.removed)
    ensures multiset(s'.clients) == multiset(s.clients) - multiset{c}
    ensures s'.removed == s.removed + (multiset(s.clients) - multiset(s'.clients))
  {
    hide Leads, WithoutFirst;
    var removed := RemovedOnce(s.clients, c, s.removed);
    RemoveStep(s, t, c, removed);
    var s3 := At(s, t, UnregisterUnlocking).(clients := WithoutFirst(s.clients, c), removed := removed);
    UnlockStep(s3, t);
    s' := At(s3, t, Out).(lock := false);
    LeadsThrough(s, s3, s');
    assert s'.pcs == s.pcs[t := Out];
  }

  lemma RemoveStep(s: State, t: Thread, c: Client, removed: multiset<Client>)
    requires t < |s.pcs| && s.pcs[t] == Removing(c)
    requires removed == if c in s.clients then s.removed + multiset{c} else s.removed
    ensures Leads(s, At(s, t, UnregisterUnlocking).(clients := WithoutFirst(s.clients, c), removed := removed))
  {
    hide Leads, WithoutFirst, MapStep, UnmapStep, NotifyStep, RegisterStep, RegisteredStep;
    var s' := At(s, t, UnregisterUnlocking).(clients := WithoutFirst(s.clients, c), removed := removed);
    assert UnregisterStep(s, s', t);
    LeadsHere(s);
    LeadsOn(s, s, s', t);
  }

  lemma UnlockStep(s: State, t: Thread)
    requires t < |s.pcs| && s.pcs[t].UnregisterUnlocking?
    ensures Leads(s, At(s, t, Out).(lock := false))
  {
    hide Leads, MapStep, UnmapStep, NotifyStep, RegisterStep, RegisteredStep;
    var s' := At(s, t, Out).(lock := false);
    assert UnregisterStep(s, s', t);
    LeadsHere(s);
    LeadsOn(s, s, s', t);
  }

  lemma RemovedOnce(s: seq<Client>, c: Client, before: multiset<Client>) returns (removed: multiset<Client>)
    ensures removed == if c in s then before + multiset{c} else before
    ensures removed == before + (multiset(s) - multiset(WithoutFirst(s, c)))
    ensures multiset(WithoutFirst(s, c)) == multiset(s) - multiset{c}
  {
    removed := if c in s then before + multiset{c} else before;
  }
}
