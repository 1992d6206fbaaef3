/** A transaction of jobs as its handlers update it.  Every handler runs to its end
    in the main loop; while the abort of a transaction waits for a job, the main
    loop may run the handlers of other jobs. */
module JobTransaction {
  import opened Helpers
  import opened Jobs

  /** The first job of `list` that fails to prepare, or `none`. */
  function FirstFailure(list: seq<JobId>, prepare: JobId -> int, none: JobId): (r: JobId)
    ensures r != none ==> r in list && prepare(r) != 0
  {
    if list == [] then none
    else if prepare(list[0]) != 0 then list[0]
    else FirstFailure(list[1..], prepare, none)
  }

  /** The first `i` jobs of the list are prepared, all jobs are pending. */
  ghost predicate PrepareInv(jobs: seq<Job>, list: seq<JobId>, prepare: JobId -> int, i: nat)
  {
    && i <= |list|
    && (forall k {:trigger jobs[k]} | 0 <= k < |jobs| :: PendingJob(jobs[k]))
    && (forall a {:trigger list[a]} | 0 <= a < i :: prepare(list[a]) == 0)
  }

  lemma {:induction false} FirstFailureAt(list: seq<JobId>, prepare: JobId -> int, none: JobId, i: nat)
    requires i < |list| && prepare(list[i]) != 0
    requires forall a {:trigger list[a]} | 0 <= a < i :: prepare(list[a]) == 0
    ensures FirstFailure(list, prepare, none) == list[i]
  {
    if i > 0 {
      assert list[1..][i - 1] == list[i];
      FirstFailureAt(list[1..], prepare, none, i - 1);
    }
  }

  lemma {:induction false} NoFailure(list: seq<JobId>, prepare: JobId -> int, none: JobId)
    requires forall a {:trigger list[a]} | 0 <= a < |list| :: prepare(list[a]) == 0
    ensures FirstFailure(list, prepare, none) == none
  {
  }

  /** Everyone commits, or nobody but the job that finalizes, and that one exactly
      when it is not itself the first to fail. */
  ghost predicate FinalizeOutcome(jobs: seq<Job>, list: seq<JobId>, prepare: JobId -> int, id: JobId)
  {
    var f := FirstFailure(list, prepare, |jobs|);
    forall k {:trigger jobs[k]} | 0 <= k < |jobs| ::
      FinalizedJob(jobs[k]) && (jobs[k].outcome.Committed? <==> f == |jobs| || (k == id && f != id))
  }

  /** What becomes of each job, from what the preparations return in the order of the
      list. */
  lemma OutcomeIs(jobs: seq<Job>, list: seq<JobId>, prepare: JobId -> int, id: JobId, k: JobId)
    requires FinalizeOutcome(jobs, list, prepare, id) && id < |jobs| && k < |jobs| && Everyone(|jobs|, list)
    ensures jobs[k].outcome.Committed? || jobs[k].outcome.Aborted?
    ensures (forall a | 0 <= a < |list| :: prepare(list[a]) == 0) ==> jobs[k].outcome.Committed?
    ensures forall i | 0 <= i < |list| && prepare(list[i]) != 0 && (forall a | 0 <= a < i :: prepare(list[a]) == 0) ::
      jobs[k].outcome.Committed? <==> k == id && list[i] != id
  {
    if forall a | 0 <= a < |list| :: prepare(list[a]) == 0 {
      NoFailure(list, prepare, |jobs|);
    }
    forall i | 0 <= i < |list| && prepare(list[i]) != 0 && (forall a | 0 <= a < i :: prepare(list[a]) == 0)
      ensures jobs[k].outcome.Committed? <==> k == id && list[i] != id
    {
      FirstFailureAt(list, prepare, |jobs|, i);
    }
  }

  lemma OutcomeAgreed(jobs: seq<Job>, list: seq<JobId>, prepare: JobId -> int, id: JobId)
    requires FinalizeOutcome(jobs, list, prepare, id) && id < |jobs| && Everyone(|jobs|, list)
    ensures DonePhase(jobs, [], prepare)
  {
    var f := FirstFailure(list, prepare, |jobs|);
    if f != |jobs| && f != id {
      assert Split(jobs, prepare, id);
    }
  }

  /** Jobs of the list that were finalized, from the front. */
  ghost predicate CommitInv(jobs: seq<Job>, list: seq<JobId>)
  {
    && Distinct(list) && Within(list, |jobs|)
    && forall k {:trigger jobs[k]} | 0 <= k < |jobs| ::
         if k in list then PendingJob(jobs[k]) else FinalizedJob(jobs[k]) && jobs[k].outcome.Committed?
  }

  lemma CommitStep(s0: seq<Job>, list: seq<JobId>)
    requires list != [] && CommitInv(s0, list)
    ensures Finalizable(s0[list[0]]) && CommitInv(s0[list[0] := Finalized(s0[list[0]])], list[1..])
    ensures list[0] !in list[1..]
  {
  }

  function NewJob(autoFinalize: bool, autoDismiss: bool): Job
  {
    Job(Created, 0, false, false, false, false, 1, false, 0, true, autoFinalize, autoDismiss, Undecided)
  }

  ghost predicate SomeManual(jobs: seq<Job>)
  {
    exists k :: 0 <= k < |jobs| && !jobs[k].autoFinalize
  }

  /** The transaction after `id` has completed without an error: the job waits for
      the others; or it is the last one, and all of them wait for the user; or they
      are finalized at once. */
  ghost predicate Succeeded(s0: seq<Job>, l0: seq<JobId>, jobs: seq<Job>, list: seq<JobId>, prepare: JobId -> int,
                            id: JobId)
    requires id < |s0| == |jobs|
  {
    if exists k :: 0 <= k < |s0| && k != id && !Completed(s0[k].status) then
      jobs == s0[id := s0[id].(status := Waiting)] && list == l0
    else if SomeManual(s0) then
      list == l0 && forall k {:trigger jobs[k]} | 0 <= k < |jobs| :: jobs[k] == s0[k].(status := Pending)
    else
      list == [] && FinalizeOutcome(jobs, l0, prepare, id)
  }

  class JobTxn {
    var jobs: seq<Job>
    var list: seq<JobId>
    var aborting: bool

    /** What the driver of a job returns from its prepare callback, 0 if it has none. */
    const prepare: JobId -> int

    /** Between two handlers nobody has been finalized, or everybody has. */
    ghost predicate Stable()
      reads this
    {
      || (!aborting && ActivePhase(jobs, list))
      || (!aborting && PendingPhase(jobs, list))
      || DonePhase(jobs, list, prepare)
    }

    method FinalizeSingle(k: JobId)
      requires list != [] && list[0] == k && k !in list[1..] && k < |jobs| && Finalizable(jobs[k])
      modifies `jobs, `list
      ensures jobs == old(jobs)[k := Finalized(old(jobs)[k])] && list == old(list)[1..]
    {
      jobs := jobs[k := Decided(jobs[k])];
      WithoutHead(list);
      list := Without(list, k);
      jobs := jobs[k := Concluding(jobs[k])];
    }

    method CancelOthers(id: JobId)
      requires AbortReady(jobs, list, id)
      modifies `jobs
      ensures |jobs| == |old(jobs)| && AbortInv(jobs, list, id, WillCommit(old(jobs)[id]))
      ensures SomeUnstarted(jobs, id) <==> SomeUnstarted(old(jobs), id)
      ensures !jobs[id].status.Created?
    {
      for i := 0 to |list|
        invariant CancelInv(old(jobs), jobs, list, id, i)
      {
        var k := list[i];
        CancelNext(old(jobs), jobs, list, id, i);
        if k != id {
          jobs := jobs[k := CancelAsync(jobs[k], false)];
        }
      }
      CancelledAll(old(jobs), jobs, list, id);
    }

    /** The job's coroutine ends while the transaction is aborted, and its exit handler runs. */
    method RunToEnd(m: JobId)
      requires aborting && m < |jobs| && Lively(jobs[m]) && Doomed(jobs[m])
      modifies this
      ensures aborting && list == old(list)
      ensures OnlyAt(old(jobs), jobs, m)
      ensures Ended(old(jobs)[m], jobs[m]) && jobs[m].status.Aborting?
      decreases 0, 5, 0
    {
      hide Succeeded, AbortDone, SomeUnstarted, Exit;
      if jobs[m].status.Paused? || jobs[m].status.Standby? {
        Wake(m);
      }
      if !jobs[m].deferred {
        var r: int := *;
        RunReturn(m, r);
      }
      var stuck := JobExit(m);
    }

    /** A handler of job `m` runs while the abort waits: its nodes are drained or
        released, it is paused, resumed or stopped by an error, its coroutine is
        entered, makes it ready or ends. */
    method Meanwhile(m: JobId)
      requires aborting && m < |jobs| && PauseOk(jobs[m]) && (Lively(jobs[m]) ==> Doomed(jobs[m]))
      modifies this
      ensures aborting && list == old(list) && OnlyAt(old(jobs), jobs, m) && Ended(old(jobs)[m], jobs[m])
      decreases 0, 6
    {
      var j := jobs[m];
      if
      case true =>
        jobs := jobs[m := j.(pauseCount := j.pauseCount + 1, drains := j.drains + 1)];
      case j.drains > 0 =>
        jobs := jobs[m := j.(pauseCount := j.pauseCount - 1, drains := j.drains - 1)];
      case !j.userPaused =>
        jobs := jobs[m := j.(pauseCount := j.pauseCount + 1, userPaused := true)];
      case j.userPaused =>
        jobs := jobs[m := ResetIostatus(j).(pauseCount := j.pauseCount - 1, userPaused := false)];
      case true =>
        jobs := jobs[m := StoppedByError(j)];
      case Lively(j) =>
        RunOn(m);
    }

    /** The coroutine of a cancelled job goes on. */
    method RunOn(m: JobId)
      requires aborting && m < |jobs| && Lively(jobs[m]) && Doomed(jobs[m])
      modifies this
      ensures aborting && list == old(list) && OnlyAt(old(jobs), jobs, m) && Ended(old(jobs)[m], jobs[m])
      decreases 0, 5, 1
    {
      if jobs[m].status.Paused? || jobs[m].status.Standby? {
        Wake(m);
      } else if * {
        if jobs[m].status.Running? && !jobs[m].deferred {
          jobs := jobs[m := Moved(jobs[m], Ready)];
        }
      } else {
        RunToEnd(m);
      }
    }

    /** The wait for one job, with any handlers of any jobs in between.  It never ends
        for a job that was not started. */
    method FinishSync(k: JobId) returns (stuck: bool)
      requires aborting && k < |jobs| && !Completed(jobs[k].status) && Doomed(jobs[k])
      requires Waitable(jobs)
      modifies this
      ensures aborting && list == old(list) && EndedAll(old(jobs), jobs)
      ensures stuck <==> jobs[k].status.Created?
      ensures !stuck ==> Finalizable(jobs[k])
      decreases 0, 7
    {
      var steps: nat :| steps >= 0;
      for i := 0 to steps
        invariant aborting && list == old(list) && EndedAll(old(jobs), jobs)
      {
        var m: nat :| m >= 0;
        if m < |jobs| {
          ghost var before := jobs;
          StillWaitable(old(jobs), jobs, m);
          Meanwhile(m);
          EndedStep(old(jobs), before, jobs, m);
        }
      }
      StillWaitable(old(jobs), jobs, k);
      assert Ended(old(jobs)[k], jobs[k]);
      if Lively(jobs[k]) {
        ghost var before := jobs;
        RunToEnd(k);
        EndedStep(old(jobs), before, jobs, k);
      }
      stuck := !Completed(jobs[k].status);
    }

    method CompletedTxnAbort(id: JobId) returns (stuck: bool)
      requires !aborting ==> AbortReady(jobs, list, id)
      modifies this
      ensures aborting && |jobs| == |old(jobs)|
      ensures old(aborting) ==> !stuck && jobs == old(jobs) && list == old(list)
      ensures !old(aborting) ==> (stuck <==> SomeUnstarted(old(jobs), id))
      ensures !old(aborting) && !stuck ==> list == [] && AbortDone(jobs, id, WillCommit(old(jobs)[id]))
      decreases if aborting then 0 else 1, 0
    {
      if aborting {
        return false;
      }
      aborting := true;
      ghost var commits := WillCommit(jobs[id]);
      CancelOthers(id);
      while list != []
        invariant aborting && |jobs| == |old(jobs)| && !jobs[id].status.Created?
        invariant AbortInv(jobs, list, id, commits)
        invariant SomeUnstarted(jobs, id) <==> SomeUnstarted(old(jobs), id)
        decreases |list|
      {
        var k := list[0];
        ghost var s0 := jobs;
        assert Doomed(jobs[k]);
        if !Completed(jobs[k].status) {
          assert jobs[k].cancelled;
          stuck := FinishSync(k);
          EndedKeeps(s0, jobs, list, id, commits);
          SameUnstarted(s0, jobs, id);
          if stuck {
            return;
          }
        }
        FinalizedKeeps(jobs, list, id, commits);
        FinalizeUnstarted(jobs, k, id);
        FinalizeSingle(k);
      }
      stuck := false;
      NobodyUnstarted(jobs, id, commits);
    }

    /** A paused job is entered again. */
    method Wake(m: JobId)
      requires m < |jobs| && (jobs[m].status.Paused? || jobs[m].status.Standby?)
      modifies `jobs
      ensures jobs == old(jobs)[m := old(jobs)[m].(status := if old(jobs)[m].status.Paused? then Running else Ready)]
    {
      jobs := jobs[m := Moved(jobs[m], if jobs[m].status.Paused? then Running else Ready)];
    }

    /** The job's coroutine ends with `r`; the exit handler is scheduled. */
    method RunReturn(m: JobId, r: int)
      requires m < |jobs| && !jobs[m].deferred && (jobs[m].status.Running? || jobs[m].status.Ready?)
      modifies `jobs
      ensures jobs == old(jobs)[m := old(jobs)[m].(ret := r, deferred := true)]
    {
      jobs := jobs[m := jobs[m].(ret := r, deferred := true)];
    }

    /** The exit handler of a job whose coroutine has ended. */
    method JobExit(m: JobId) returns (stuck: bool)
      requires m < |jobs| && jobs[m].started && jobs[m].deferred && (jobs[m].status.Running? || jobs[m].status.Ready?)
      requires aborting ==> jobs[m].cancelled
      requires !aborting ==> Stable()
      modifies this
      ensures old(aborting) ==>
        !stuck && jobs == old(jobs)[m := UpdateRc(old(jobs)[m])] && list == old(list) && aborting
      ensures !old(aborting) ==>
        |jobs| == |old(jobs)| && (stuck <==> !WillCommit(old(jobs)[m]) && SomeUnstarted(old(jobs), m))
      ensures !old(aborting) && !stuck ==> Stable()
      ensures !old(aborting) && !stuck && !WillCommit(old(jobs)[m]) ==> list == [] && AbortDone(jobs, m, false)
      ensures !old(aborting) && WillCommit(old(jobs)[m]) ==> Succeeded(old(jobs), old(list), jobs, list, prepare, m)
      decreases if aborting then 0 else 1, 4
    {
      if !aborting {
        ExitAt(jobs, list, prepare, m);
      }
      stuck := JobCompleted(m);
    }

    method JobCompleted(id: JobId) returns (stuck: bool)
      requires id < |jobs| && !Completed(jobs[id].status) && Allowed(jobs[id].status, Aborting)
      requires aborting ==> jobs[id].cancelled
      requires !aborting ==> Exit(jobs, list, id)
      modifies this
      ensures old(aborting) ==>
        !stuck && jobs == old(jobs)[id := UpdateRc(old(jobs)[id])] && list == old(list) && aborting
      ensures !old(aborting) ==>
        |jobs| == |old(jobs)| && (stuck <==> !WillCommit(old(jobs)[id]) && SomeUnstarted(old(jobs), id))
      ensures !old(aborting) && !stuck ==> Stable()
      ensures !old(aborting) && !stuck && !WillCommit(old(jobs)[id]) ==> list == [] && AbortDone(jobs, id, false)
      ensures !old(aborting) && WillCommit(old(jobs)[id]) ==> Succeeded(old(jobs), old(list), jobs, list, prepare, id)
      decreases if aborting then 0 else 1, 3
    {
      jobs := jobs[id := UpdateRc(jobs[id])];
      if jobs[id].ret != 0 {
        if !aborting {
          ExitFails(old(jobs), list, id);
        }
        stuck := CompletedTxnAbort(id);
        AbortStable(jobs, prepare, id);
      } else {
        assert jobs == old(jobs);
        CompletedTxnSuccess(id);
        stuck := false;
      }
    }

    method CompletedTxnSuccess(id: JobId)
      requires !aborting && Exit(jobs, list, id) && jobs[id].started && WillCommit(jobs[id])
      modifies this
      ensures Stable() && |jobs| == |old(jobs)|
      ensures Succeeded(old(jobs), old(list), jobs, list, prepare, id)
      decreases 1, 2
    {
      jobs := jobs[id := Moved(jobs[id], Waiting)];
      ExitWaits(old(jobs), list, id);
      for i := 0 to |list|
        invariant forall a {:trigger list[a]} | 0 <= a < i :: Completed(jobs[list[a]].status)
      {
        if !Completed(jobs[list[i]].status) {
          assert list[i] != id;
          return;
        }
        assert jobs[list[i]].ret == 0;
      }
      AllWaiting(jobs, list);
      NobodyLeft(old(jobs), jobs, id);
      ghost var waiting := jobs;
      var manual := ToPending();
      AfterPending(old(jobs), waiting, jobs, id);
      if !manual {
        DoFinalize(id);
      }
    }

    /** All jobs turn to pending; whether one of them is to be finalized by hand. */
    method ToPending() returns (manual: bool)
      requires Everyone(|jobs|, list) && forall k {:trigger jobs[k]} | 0 <= k < |jobs| :: WaitingJob(jobs[k])
      modifies `jobs
      ensures |jobs| == |old(jobs)|
      ensures forall k {:trigger jobs[k]} | 0 <= k < |jobs| ::
        PendingJob(jobs[k]) && jobs[k] == old(jobs)[k].(status := Pending)
      ensures manual <==> SomeManual(old(jobs))
    {
      for i := 0 to |list|
        invariant PendingInv(old(jobs), jobs, list, i)
      {
        PendingNext(old(jobs), jobs, list, i);
        jobs := jobs[list[i] := Moved(jobs[list[i]], Pending)];
      }
      assert list[..|list|] == list;
      manual := false;
      for i := 0 to |list|
        invariant forall a {:trigger list[a]} | 0 <= a < i :: jobs[list[a]].autoFinalize
      {
        if !jobs[list[i]].autoFinalize {
          assert !old(jobs)[list[i]].autoFinalize;
          return true;
        }
      }
      forall k | 0 <= k < |jobs| ensures old(jobs)[k].autoFinalize {
        assert k in list;
        assert jobs[k].autoFinalize;
      }
    }

    /** The jobs are prepared in turn; the first failure aborts the transaction. */
    method DoFinalize(id: JobId)
      requires !aborting && Everyone(|jobs|, list) && id < |jobs|
      requires forall k {:trigger jobs[k]} | 0 <= k < |jobs| :: PendingJob(jobs[k])
      modifies this
      ensures list == [] && |jobs| == |old(jobs)| && FinalizeOutcome(jobs, old(list), prepare, id)
      ensures Stable()
      decreases 1, 1
    {
      ghost var all := list;
      for i := 0 to |list|
        invariant !aborting && list == all && |jobs| == |old(jobs)|
        invariant PrepareInv(jobs, list, prepare, i)
      {
        var k := list[i];
        assert PendingJob(jobs[k]);
        var rc := prepare(k);
        jobs := jobs[k := UpdateRc(jobs[k].(ret := rc))];
        if rc != 0 {
          FirstFailureAt(list, prepare, |jobs|, i);
          PrepareFails(jobs, list, k, id);
          var stuck := CompletedTxnAbort(id);
          OutcomeAgreed(jobs, all, prepare, id);
          return;
        }
      }
      NoFailure(list, prepare, |jobs|);
      while list != []
        invariant !aborting && |jobs| == |old(jobs)| && CommitInv(jobs, list)
        decreases |list|
      {
        CommitStep(jobs, list);
        FinalizeSingle(list[0]);
      }
      OutcomeAgreed(jobs, all, prepare, id);
    }

    // ---- Handlers of users and of the environment ------------------------------

    /** A transaction of new jobs, the latest one first. */
    constructor (autoFinalize: seq<bool>, autoDismiss: seq<bool>, prepare: JobId -> int)
      requires |autoFinalize| == |autoDismiss| > 0
      ensures Stable() && !aborting && |jobs| == |list| == |autoFinalize| && this.prepare == prepare
      ensures forall a | 0 <= a < |list| :: list[a] == |list| - 1 - a
      ensures forall k | 0 <= k < |jobs| :: jobs[k] == NewJob(autoFinalize[k], autoDismiss[k])
    {
      var n := |autoFinalize|;
      this.prepare := prepare;
      aborting := false;
      list := seq(n, a requires 0 <= a < n => n - 1 - a);
      jobs := seq(n, k requires 0 <= k < n => NewJob(autoFinalize[k], autoDismiss[k]));
      new;
      EveryoneDown(n, list);
      assert !Completed(jobs[0].status);
    }

    method Start(k: JobId)
      requires Stable() && k < |jobs| && jobs[k].status.Created?
      modifies `jobs
      ensures Stable() && OnlyAt(old(jobs), jobs, k)
      ensures jobs[k] == old(jobs)[k].(status := Running, started := true, pauseCount := jobs[k].pauseCount)
      ensures jobs[k].pauseCount == old(jobs)[k].pauseCount - 1
    {
      ActiveAt(jobs, list, prepare, k);
      jobs := jobs[k := Moved(jobs[k], Running).(started := true, pauseCount := jobs[k].pauseCount - 1)];
      LocalStep(old(jobs), list, k, jobs[k]);
    }

    /** The coroutine passes a point where it may stop. */
    method PausePoint(k: JobId)
      requires Stable() && k < |jobs| && !jobs[k].deferred && (jobs[k].status.Running? || jobs[k].status.Ready?)
      modifies `jobs
      ensures Stable() && OnlyAt(old(jobs), jobs, k)
      ensures jobs[k] == old(jobs)[k].(status :=
                if old(jobs)[k].pauseCount == 0 || old(jobs)[k].cancelled then old(jobs)[k].status
                else if old(jobs)[k].status.Ready? then Standby else Paused)
    {
      ActiveAt(jobs, list, prepare, k);
      if jobs[k].pauseCount > 0 && !jobs[k].cancelled {
        jobs := jobs[k := Moved(jobs[k], if jobs[k].status.Ready? then Standby else Paused)];
        LocalStep(old(jobs), list, k, jobs[k]);
      }
    }

    method Enter(k: JobId)
      requires Stable() && k < |jobs| && (jobs[k].status.Paused? || jobs[k].status.Standby?)
      modifies `jobs
      ensures Stable() && OnlyAt(old(jobs), jobs, k)
      ensures jobs[k] == old(jobs)[k].(status := if old(jobs)[k].status.Paused? then Running else Ready)
    {
      ActiveAt(jobs, list, prepare, k);
      Wake(k);
      LocalStep(old(jobs), list, k, jobs[k]);
    }

    method TransitionToReady(k: JobId)
      requires Stable() && k < |jobs| && !jobs[k].deferred && jobs[k].status.Running?
      modifies `jobs
      ensures Stable() && jobs == old(jobs)[k := old(jobs)[k].(status := Ready)]
    {
      ActiveAt(jobs, list, prepare, k);
      jobs := jobs[k := Moved(jobs[k], Ready)];
      LocalStep(old(jobs), list, k, jobs[k]);
    }

    method CoroutineEnds(k: JobId, r: int)
      requires Stable() && k < |jobs| && !jobs[k].deferred && (jobs[k].status.Running? || jobs[k].status.Ready?)
      modifies `jobs
      ensures Stable() && jobs == old(jobs)[k := old(jobs)[k].(ret := r, deferred := true)]
    {
      ActiveAt(jobs, list, prepare, k);
      RunReturn(k, r);
      LocalStep(old(jobs), list, k, jobs[k]);
    }

    method DrainedBegin(k: JobId)
      requires Stable() && k < |jobs|
      modifies `jobs
      ensures Stable() && OnlyAt(old(jobs), jobs, k)
      ensures jobs[k] == old(jobs)[k].(drains := old(jobs)[k].drains + 1, pauseCount := old(jobs)[k].pauseCount + 1)
    {
      jobs := jobs[k := jobs[k].(pauseCount := jobs[k].pauseCount + 1, drains := jobs[k].drains + 1)];
      PauseStep(old(jobs), list, prepare, k, jobs[k]);
    }

    /** The end of a drained section finds the pause it began with. */
    method DrainedEnd(k: JobId)
      requires Stable() && k < |jobs| && jobs[k].drains > 0
      modifies `jobs
      ensures Stable() && OnlyAt(old(jobs), jobs, k)
      ensures jobs[k] == old(jobs)[k].(drains := old(jobs)[k].drains - 1, pauseCount := jobs[k].pauseCount)
      ensures jobs[k].pauseCount == old(jobs)[k].pauseCount - 1
    {
      PauseAt(jobs, list, prepare, k);
      assert jobs[k].pauseCount > 0;
      jobs := jobs[k := jobs[k].(pauseCount := jobs[k].pauseCount - 1, drains := jobs[k].drains - 1)];
      PauseStep(old(jobs), list, prepare, k, jobs[k]);
    }

    method UserPause(k: JobId) returns (ok: bool)
      requires Stable() && k < |jobs|
      modifies `jobs
      ensures Stable()
      ensures ok == (old(jobs)[k].status in {Created, Running, Paused, Ready, Standby} && !old(jobs)[k].userPaused)
      ensures if ok then OnlyAt(old(jobs), jobs, k) else jobs == old(jobs)
      ensures ok ==> jobs[k] == old(jobs)[k].(userPaused := true, pauseCount := old(jobs)[k].pauseCount + 1)
    {
      ok := Accepts(Pause, jobs[k].status) && !jobs[k].userPaused;
      if ok {
        jobs := jobs[k := jobs[k].(userPaused := true, pauseCount := jobs[k].pauseCount + 1)];
        PauseStep(old(jobs), list, prepare, k, jobs[k]);
      }
    }

    /** A paused job always has a pause to give back, so the count is never the reason to refuse. */
    method UserResume(k: JobId) returns (ok: bool)
      requires Stable() && k < |jobs|
      modifies `jobs
      ensures Stable()
      ensures ok == (old(jobs)[k].status in {Created, Running, Paused, Ready, Standby} && old(jobs)[k].userPaused)
      ensures if ok then OnlyAt(old(jobs), jobs, k) else jobs == old(jobs)
      ensures ok ==> jobs[k] == old(jobs)[k].(userPaused := false, pauseCount := jobs[k].pauseCount, iostatusOk := true)
      ensures ok ==> jobs[k].pauseCount == old(jobs)[k].pauseCount - 1
    {
      PauseAt(jobs, list, prepare, k);
      if !jobs[k].userPaused || jobs[k].pauseCount <= 0 {
        return false;
      }
      if !Accepts(Resume, jobs[k].status) {
        return false;
      }
      ok := true;
      jobs := jobs[k := ResetIostatus(jobs[k])];
      jobs := jobs[k := jobs[k].(userPaused := false, pauseCount := jobs[k].pauseCount - 1)];
      PauseStep(old(jobs), list, prepare, k, jobs[k]);
    }

    /** An I/O error that is to stop the job pauses it as the user would; any other
        action leaves the job alone. */
    method ErrorAction(k: JobId, onError: OnError, noSpace: bool) returns (action: Action)
      requires Stable() && k < |jobs|
      modifies `jobs
      ensures Stable() && action == ActionFor(onError, noSpace)
      ensures jobs == if action.StopJob? then old(jobs)[k := StoppedByError(old(jobs)[k])] else old(jobs)
    {
      action := ActionFor(onError, noSpace);
      if action.StopJob? {
        PauseAt(jobs, list, prepare, k);
        jobs := jobs[k := StoppedByError(jobs[k])];
        PauseStep(old(jobs), list, prepare, k, jobs[k]);
      }
    }

    method IostatusReset(k: JobId)
      requires Stable() && k < |jobs|
      modifies `jobs
      ensures Stable() && jobs == old(jobs)[k := old(jobs)[k].(iostatusOk := true)]
    {
      PauseAt(jobs, list, prepare, k);
      jobs := jobs[k := ResetIostatus(jobs[k])];
      PauseStep(old(jobs), list, prepare, k, jobs[k]);
    }

    /** Cancelling a job that was not started, or whose coroutine has ended, aborts
        the whole transaction at once; otherwise the job will notice by itself. */
    method UserCancel(k: JobId, force: bool) returns (ok: bool, stuck: bool)
      requires Stable() && k < |jobs|
      modifies this
      ensures ok == (old(jobs)[k].status in {Created, Running, Paused, Ready, Standby, Waiting, Pending})
      ensures |jobs| == |old(jobs)|
      ensures !stuck ==> Stable()
      ensures !ok ==> !stuck && jobs == old(jobs) && list == old(list)
      ensures stuck <==> ok && AtOnce(old(jobs)[k]) && SomeUnstarted(old(jobs), k)
      ensures ok && !stuck && AtOnce(old(jobs)[k]) ==> list == [] && AbortDone(jobs, k, false)
      ensures ok && !AtOnce(old(jobs)[k]) ==> OnlyAt(old(jobs), jobs, k) && list == old(list)
      ensures ok && !AtOnce(old(jobs)[k]) ==> jobs[k] == old(jobs)[k].(cancelled := true, userPaused := false,
        iostatusOk := true, forceCancel := old(jobs)[k].forceCancel || force, pauseCount := jobs[k].pauseCount)
    {
      if !Accepts(Cancel, jobs[k].status) {
        return false, false;
      }
      ok, stuck := true, false;
      PauseAt(jobs, list, prepare, k);
      CancelReady(jobs, list, prepare, k, force);
      jobs := jobs[k := CancelAsync(jobs[k], force)];
      if !jobs[k].started {
        stuck := JobCompleted(k);
      } else if jobs[k].deferred {
        stuck := CompletedTxnAbort(k);
        AbortStable(jobs, prepare, k);
      }
    }

    method UserFinalize(k: JobId) returns (ok: bool)
      requires Stable() && k < |jobs|
      modifies this
      ensures Stable() && |jobs| == |old(jobs)|
      ensures ok == old(jobs)[k].status.Pending?
      ensures !ok ==> jobs == old(jobs) && list == old(list)
      ensures ok ==> list == [] && FinalizeOutcome(jobs, old(list), prepare, k)
    {
      ok := Accepts(Finalize, jobs[k].status);
      if ok {
        PendingAt(jobs, list, prepare, k);
        DoFinalize(k);
      }
    }

    method UserDismiss(k: JobId) returns (ok: bool)
      requires Stable() && k < |jobs|
      modifies `jobs
      ensures Stable() && ok == old(jobs)[k].status.Concluded?
      ensures if ok then OnlyAt(old(jobs), jobs, k) else jobs == old(jobs)
      ensures ok ==> jobs[k] == old(jobs)[k].(status := Null, deferred := true)
    {
      ok := Accepts(Dismiss, jobs[k].status);
      if ok {
        DoneAt(jobs, list, prepare, k);
        jobs := jobs[k := Moved(jobs[k], Null).(deferred := true)];
        DismissStep(old(jobs), prepare, k, jobs[k]);
      }
    }
  }

  /** The jobs differ at most in job `k`. */
  ghost predicate OnlyAt(s0: seq<Job>, s1: seq<Job>, k: JobId)
  {
    k < |s0| == |s1| && s1 == s0[k := s1[k]]
  }

  datatype OnError = OnEnospc | OnAuto | OnStop | OnReport | OnIgnore

  datatype Action = StopJob | ReportError | IgnoreError

  /** What the error policy of a job makes of an error. */
  function ActionFor(onError: OnError, noSpace: bool): (r: Action)
    ensures r.StopJob? <==> onError.OnStop? || (noSpace && (onError.OnEnospc? || onError.OnAuto?))
    ensures r.IgnoreError? <==> onError.OnIgnore?
  {
    match onError
    case OnEnospc => if noSpace then StopJob else ReportError
    case OnAuto => if noSpace then StopJob else ReportError
    case OnStop => StopJob
    case OnReport => ReportError
    case OnIgnore => IgnoreError
  }

  function StoppedByError(j: Job): (r: Job)
    ensures PauseOk(j) ==> PauseOk(r) && r.pauseCount > 0
    ensures SameButPause(j, r) && r.userPaused && !r.iostatusOk
  {
    var j1 := if j.userPaused then j else j.(userPaused := true, pauseCount := j.pauseCount + 1);
    j1.(iostatusOk := false)
  }

  predicate AtOnce(j: Job)
  {
    !j.started || j.deferred
  }

  lemma EveryoneDown(n: nat, list: seq<JobId>)
    requires |list| == n && forall a {:trigger list[a]} | 0 <= a < n :: list[a] == n - 1 - a
    ensures Everyone(n, list)
  {
    forall k | 0 <= k < n ensures k in list {
      assert list[n - 1 - k] == k;
    }
  }

  ghost predicate InPhase(jobs: seq<Job>, list: seq<JobId>, prepare: JobId -> int)
  {
    ActivePhase(jobs, list) || PendingPhase(jobs, list) || DonePhase(jobs, list, prepare)
  }

  /** A status only an active job has tells the phase of the transaction. */
  lemma ActiveAt(jobs: seq<Job>, list: seq<JobId>, prepare: JobId -> int, k: JobId)
    requires InPhase(jobs, list, prepare) && k < |jobs| && !Completed(jobs[k].status)
    ensures ActivePhase(jobs, list) && ActiveJob(jobs[k])
    ensures !PendingPhase(jobs, list) && !DonePhase(jobs, list, prepare)
  {
  }

  lemma PendingAt(jobs: seq<Job>, list: seq<JobId>, prepare: JobId -> int, k: JobId)
    requires InPhase(jobs, list, prepare) && k < |jobs| && jobs[k].status.Pending?
    ensures PendingPhase(jobs, list) && !DonePhase(jobs, list, prepare)
  {
  }

  lemma DoneAt(jobs: seq<Job>, list: seq<JobId>, prepare: JobId -> int, k: JobId)
    requires InPhase(jobs, list, prepare) && k < |jobs| && jobs[k].status.Concluded?
    ensures DonePhase(jobs, list, prepare) && DoneJob(jobs[k])
  {
  }

  lemma PauseAt(jobs: seq<Job>, list: seq<JobId>, prepare: JobId -> int, k: JobId)
    requires InPhase(jobs, list, prepare) && k < |jobs|
    ensures PauseOk(jobs[k])
  {
  }

  /** An active job that stays active and incomplete keeps the phase. */
  lemma LocalStep(s0: seq<Job>, list: seq<JobId>, k: JobId, j: Job)
    requires ActivePhase(s0, list) && k < |s0| && ActiveJob(j) && !Completed(j.status)
    ensures ActivePhase(s0[k := j], list)
  {
    var s1 := s0[k := j];
    assert !Completed(s1[k].status);
    forall m | 0 <= m < |s1| ensures ActiveJob(s1[m]) {
      if m != k { assert ActiveJob(s0[m]); }
    }
  }

  /** Pausing and resuming keep every phase. */
  lemma PauseStep(s0: seq<Job>, list: seq<JobId>, prepare: JobId -> int, k: JobId, j: Job)
    requires k < |s0| && SameButPause(s0[k], j) && (PauseOk(s0[k]) ==> PauseOk(j))
    ensures ActivePhase(s0, list) ==> ActivePhase(s0[k := j], list)
    ensures PendingPhase(s0, list) ==> PendingPhase(s0[k := j], list)
    ensures DonePhase(s0, list, prepare) ==> DonePhase(s0[k := j], list, prepare)
  {
    var s1 := s0[k := j];
    forall m | 0 <= m < |s1|
      ensures SameButPause(s0[m], s1[m])
    {
    }
    if ActivePhase(s0, list) {
      var m :| 0 <= m < |s0| && !Completed(s0[m].status);
      assert !Completed(s1[m].status);
      forall m | 0 <= m < |s1| ensures ActiveJob(s1[m]) { assert ActiveJob(s0[m]); }
    }
    if PendingPhase(s0, list) {
      var m :| 0 <= m < |s0| && !s0[m].autoFinalize;
      assert !s1[m].autoFinalize;
      forall m | 0 <= m < |s1| ensures PendingJob(s1[m]) { assert PendingJob(s0[m]); }
    }
    if DonePhase(s0, list, prepare) {
      forall m | 0 <= m < |s1| ensures DoneJob(s1[m]) { assert DoneJob(s0[m]); }
      SameAgreed(s0, s1, prepare);
    }
  }

  lemma SameAgreed(s0: seq<Job>, s1: seq<Job>, prepare: JobId -> int)
    requires |s0| == |s1| && Agreed(s0, prepare)
    requires forall m {:trigger s1[m]} | 0 <= m < |s1| :: s1[m].outcome == s0[m].outcome
    ensures Agreed(s1, prepare)
  {
    if i :| Split(s0, prepare, i) {
      assert Split(s1, prepare, i);
    }
  }

  lemma DismissStep(s0: seq<Job>, prepare: JobId -> int, k: JobId, j: Job)
    requires DonePhase(s0, [], prepare) && k < |s0| && DoneJob(j) && j.outcome == s0[k].outcome
    ensures DonePhase(s0[k := j], [], prepare)
  {
    var s1 := s0[k := j];
    forall m | 0 <= m < |s1| ensures DoneJob(s1[m]) { assert DoneJob(s0[m]); }
    SameAgreed(s0, s1, prepare);
  }

  /** Cancelling leaves a state the abort, or the exit of an unstarted job, can start
      from, or one where the running job will notice. */
  lemma CancelReady(s0: seq<Job>, list: seq<JobId>, prepare: JobId -> int, k: JobId, force: bool)
    requires InPhase(s0, list, prepare) && k < |s0| && Accepts(Cancel, s0[k].status) && PauseOk(s0[k])
    ensures !DonePhase(s0, list, prepare)
    ensures var s1 := s0[k := CancelAsync(s0[k], force)];
      && (!s0[k].started ==> Exit(s1, list, k) && s1[k].status.Created?)
      && (s0[k].started && s0[k].deferred ==> AbortReady(s1, list, k))
      && (s0[k].started && !s0[k].deferred ==> ActivePhase(s1, list))
      && (SomeUnstarted(s1, k) <==> SomeUnstarted(s0, k))
  {
    var s1 := s0[k := CancelAsync(s0[k], force)];
    assert s1[k] == CancelAsync(s0[k], force);
    if ActivePhase(s0, list) {
      assert ActiveJob(s0[k]);
      forall m | 0 <= m < |s1| && m != k ensures ActiveJob(s1[m]) { assert ActiveJob(s0[m]); }
      if s0[k].started && !s0[k].deferred { LocalStep(s0, list, k, s1[k]); }
    } else {
      assert PendingJob(s0[k]) || DoneJob(s0[k]);
      forall m | 0 <= m < |s1| && m != k ensures Victim(s1[m]) { assert s0[m] == s0[m]; }
    }
    CancelUnstarted(s0, s1, k);
  }

  lemma CancelUnstarted(s0: seq<Job>, s1: seq<Job>, k: JobId)
    requires OnlyAt(s0, s1, k)
    ensures SomeUnstarted(s1, k) <==> SomeUnstarted(s0, k)
  {
    if SomeUnstarted(s0, k) {
      var m :| 0 <= m < |s0| && m != k && s0[m].status.Created?;
      assert s1[m].status.Created?;
    }
  }

  /** Job `id` ends, or is cancelled before it was started, while no job is finalized. */
  ghost predicate Exit(jobs: seq<Job>, list: seq<JobId>, id: JobId)
  {
    && Everyone(|jobs|, list) && id < |jobs| && Exiting(jobs[id])
    && forall k {:trigger jobs[k]} | 0 <= k < |jobs| && k != id :: ActiveJob(jobs[k])
  }

  predicate Exiting(j: Job)
  {
    && PauseOk(j) && j.outcome.Undecided?
    && if j.started then j.deferred && (j.status.Running? || j.status.Ready?)
       else j.status.Created? && j.cancelled && j.ret == 0
  }

  predicate WaitingJob(j: Job)
  {
    ActiveJob(j) && j.status.Waiting?
  }

  lemma ExitAt(jobs: seq<Job>, list: seq<JobId>, prepare: JobId -> int, m: JobId)
    requires InPhase(jobs, list, prepare) && m < |jobs| && jobs[m].started && jobs[m].deferred
    requires jobs[m].status.Running? || jobs[m].status.Ready?
    ensures Exit(jobs, list, m)
  {
  }

  lemma ExitFails(s0: seq<Job>, list: seq<JobId>, id: JobId)
    requires Exit(s0, list, id) && !WillCommit(s0[id])
    ensures AbortReady(s0[id := UpdateRc(s0[id])], list, id)
    ensures SomeUnstarted(s0[id := UpdateRc(s0[id])], id) <==> SomeUnstarted(s0, id)
  {
    var s1 := s0[id := UpdateRc(s0[id])];
    forall k | 0 <= k < |s1| && k != id ensures Victim(s1[k]) { assert ActiveJob(s0[k]); }
    if SomeUnstarted(s0, id) {
      var k :| 0 <= k < |s0| && k != id && s0[k].status.Created?;
      assert s1[k].status.Created?;
    }
  }

  lemma AbortStable(jobs: seq<Job>, prepare: JobId -> int, id: JobId)
    ensures AbortDone(jobs, id, false) ==> DonePhase(jobs, [], prepare)
  {
  }

  lemma ExitWaits(s0: seq<Job>, list: seq<JobId>, id: JobId)
    requires Exit(s0, list, id) && s0[id].started && WillCommit(s0[id])
    ensures forall k {:trigger s0[id := Moved(s0[id], Waiting)][k]} | 0 <= k < |s0| ::
              ActiveJob(s0[id := Moved(s0[id], Waiting)][k])
  {
  }

  lemma AllWaiting(jobs: seq<Job>, list: seq<JobId>)
    requires Everyone(|jobs|, list)
    requires forall k {:trigger jobs[k]} | 0 <= k < |jobs| :: ActiveJob(jobs[k])
    requires forall a {:trigger list[a]} | 0 <= a < |list| :: Completed(jobs[list[a]].status)
    ensures forall k {:trigger jobs[k]} | 0 <= k < |jobs| :: WaitingJob(jobs[k])
  {
    forall k | 0 <= k < |jobs| ensures WaitingJob(jobs[k]) {
      assert k in list;
      assert ActiveJob(jobs[k]);
    }
  }

  lemma AfterPending(s0: seq<Job>, s1: seq<Job>, s2: seq<Job>, id: JobId)
    requires id < |s0| == |s2| && s1 == s0[id := s0[id].(status := Waiting)]
    requires forall k {:trigger s2[k]} | 0 <= k < |s2| :: s2[k] == s1[k].(status := Pending)
    ensures forall k {:trigger s2[k]} | 0 <= k < |s2| :: s2[k] == s0[k].(status := Pending)
    ensures (SomeManual(s0) <==> SomeManual(s1)) && (SomeManual(s2) <==> SomeManual(s0))
  {
    if SomeManual(s0) {
      var k :| 0 <= k < |s0| && !s0[k].autoFinalize;
      assert !s1[k].autoFinalize && !s2[k].autoFinalize;
    }
    if SomeManual(s1) {
      var k :| 0 <= k < |s1| && !s1[k].autoFinalize;
      assert !s0[k].autoFinalize;
    }
  }

  lemma NobodyLeft(s0: seq<Job>, jobs: seq<Job>, id: JobId)
    requires id < |s0| && s0[id].started && Allowed(s0[id].status, Waiting) &&
      jobs == s0[id := s0[id].(status := Waiting)]
    requires forall k {:trigger jobs[k]} | 0 <= k < |jobs| :: WaitingJob(jobs[k])
    ensures !exists k :: 0 <= k < |s0| && k != id && !Completed(s0[k].status)
  {
    forall k | 0 <= k < |s0| && k != id ensures Completed(s0[k].status) {
      assert WaitingJob(jobs[k]);
    }
  }

  ghost predicate PendingInv(s0: seq<Job>, jobs: seq<Job>, list: seq<JobId>, i: nat)
  {
    && |jobs| == |s0| && i <= |list|
    && forall k {:trigger jobs[k]} | 0 <= k < |jobs| ::
         WaitingJob(s0[k]) && jobs[k] == if k in list[..i] then s0[k].(status := Pending) else s0[k]
  }

  lemma PendingNext(s0: seq<Job>, jobs: seq<Job>, list: seq<JobId>, i: nat)
    requires i < |list| && Everyone(|s0|, list) && PendingInv(s0, jobs, list, i)
    ensures jobs[list[i]].status.Waiting?
    ensures PendingInv(s0, jobs[list[i] := Moved(jobs[list[i]], Pending)], list, i + 1)
  {
    assert list[..i + 1] == list[..i] + [list[i]];
    assert list[i] !in list[..i];
    assert jobs[list[i]] == s0[list[i]];
    var next := jobs[list[i] := Moved(jobs[list[i]], Pending)];
    forall k | 0 <= k < |next|
      ensures WaitingJob(s0[k]) && next[k] == if k in list[..i + 1] then s0[k].(status := Pending) else s0[k]
    {
      assert jobs[k] == if k in list[..i] then s0[k].(status := Pending) else s0[k];
    }
  }

  lemma PrepareFails(jobs: seq<Job>, list: seq<JobId>, f: JobId, id: JobId)
    requires Everyone(|jobs|, list) && id < |jobs| && f < |jobs|
    requires Doomed(jobs[f]) && jobs[f].status.Aborting?
    requires forall k {:trigger jobs[k]} | 0 <= k < |jobs| && k != f :: PendingJob(jobs[k])
    ensures AbortReady(jobs, list, id) && !SomeUnstarted(jobs, id)
  {
  }

  lemma CancelNext(j0: seq<Job>, jobs: seq<Job>, list: seq<JobId>, id: JobId, i: nat)
    requires i < |list| && AbortReady(j0, list, id) && CancelInv(j0, jobs, list, id, i)
    ensures PauseOk(jobs[list[i]])
    ensures CancelInv(j0, if list[i] == id then jobs else jobs[list[i] := CancelAsync(jobs[list[i]], false)], list,
      id, i + 1)
  {
  }

  ghost predicate Waitable(jobs: seq<Job>)
  {
    forall m {:trigger jobs[m]} | 0 <= m < |jobs| :: PauseOk(jobs[m]) && (Lively(jobs[m]) ==> Doomed(jobs[m]))
  }

  lemma StillWaitable(s0: seq<Job>, s1: seq<Job>, m: JobId)
    requires Waitable(s0) && EndedAll(s0, s1) && m < |s1|
    ensures PauseOk(s1[m]) && (Lively(s1[m]) ==> Doomed(s1[m]))
  {
    assert Ended(s0[m], s1[m]);
  }

  lemma EndedStep(s0: seq<Job>, s1: seq<Job>, s2: seq<Job>, m: JobId)
    requires Waitable(s0) && EndedAll(s0, s1) && OnlyAt(s1, s2, m) && Ended(s1[m], s2[m])
    ensures EndedAll(s0, s2)
  {
    forall k | 0 <= k < |s0| ensures Ended(s0[k], s2[k]) {
      assert Ended(s0[k], s1[k]) && PauseOk(s0[k]);
      if k == m { EndedTrans(s0[k], s1[k], s2[k]); }
    }
  }

  lemma SameUnstarted(s0: seq<Job>, s1: seq<Job>, id: JobId)
    requires |s0| == |s1|
    requires forall k {:trigger s1[k]} | 0 <= k < |s1| :: s1[k].status.Created? <==> s0[k].status.Created?
    ensures SomeUnstarted(s1, id) <==> SomeUnstarted(s0, id)
  {
    if SomeUnstarted(s0, id) {
      var k :| 0 <= k < |s0| && k != id && s0[k].status.Created?;
      assert s1[k].status.Created?;
    }
  }

  lemma FinalizeUnstarted(s0: seq<Job>, k: JobId, id: JobId)
    requires k < |s0| && Finalizable(s0[k])
    ensures SomeUnstarted(s0[k := Finalized(s0[k])], id) <==> SomeUnstarted(s0, id)
    ensures id < |s0| ==> (s0[k := Finalized(s0[k])][id].status.Created? <==> s0[id].status.Created?)
  {
    SameUnstarted(s0, s0[k := Finalized(s0[k])], id);
  }

  lemma NobodyUnstarted(jobs: seq<Job>, id: JobId, commits: bool)
    requires AbortInv(jobs, [], id, commits)
    ensures !SomeUnstarted(jobs, id) && AbortDone(jobs, id, commits)
  {
  }

  // ---- Two outcomes nobody would ask for --------------------------------------

  /** A job that runs, and one that has ended and waits for the others. */
  const RUNNING: Job := NewJob(true, true).(status := Running, started := true, pauseCount := 0)
  const WAITING: Job := RUNNING.(status := Waiting, deferred := true)

  method TwoRunning(prepare: JobId -> int) returns (t: JobTxn)
    ensures fresh(t) && t.Stable() && !t.aborting && t.prepare == prepare
    ensures t.list == [1, 0] && t.jobs == [RUNNING, RUNNING]
  {
    t := new JobTxn([true, true], [true, true], prepare);
    assert t.list == [1, 0];
    t.Start(0);
    t.Start(1);
  }

  method OneWaiting(prepare: JobId -> int) returns (t: JobTxn)
    ensures fresh(t) && t.Stable() && t.prepare == prepare
    ensures t.list == [1, 0] && t.jobs == [WAITING, RUNNING]
  {
    hide FinalizeOutcome, AbortDone;
    t := TwoRunning(prepare);
    t.CoroutineEnds(0, 0);
    assert !Completed(t.jobs[1].status);
    var stuck := t.JobExit(0);
  }

  /** Job 0 fails to prepare.  Job 1, whose end finalizes the two, commits all the same. */
  method SplitCommit(prepare: JobId -> int) returns (t: JobTxn)
    requires prepare(0) != 0 && prepare(1) == 0
    ensures fresh(t) && t.prepare == prepare && |t.jobs| == 2 && t.list == []
    ensures t.jobs[0].outcome.Aborted? && t.jobs[1].outcome.Committed?
  {
    hide AbortDone;
    t := OneWaiting(prepare);
    RunningTells(t.jobs, t.list, prepare);
    t.CoroutineEnds(1, 0);
    FirstFailureAt(t.list, prepare, 2, 1);
    var stuck := t.JobExit(1);
    assert DoneJob(t.jobs[0]);
  }

  lemma RunningTells(jobs: seq<Job>, list: seq<JobId>, prepare: JobId -> int)
    requires jobs == [WAITING, RUNNING] && InPhase(jobs, list, prepare)
    ensures ActivePhase(jobs, list) && !DonePhase(jobs, list, prepare)
  {
    ActiveAt(jobs, list, prepare, 1);
  }

  /** Neither job was started.  Cancelling one of them waits for the other for ever. */
  method CancelHangs(prepare: JobId -> int) returns (t: JobTxn, stuck: bool)
    ensures fresh(t) && |t.jobs| == 2 && stuck
  {
    t := new JobTxn([true, true], [true, true], prepare);
    assert t.jobs[1].status.Created?;
    var ok;
    ok, stuck := t.UserCancel(0, false);
  }
}
