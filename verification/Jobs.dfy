/** Background jobs and the transaction that completes them together. */
module Jobs {

  datatype Status =
    | Undefined | Created | Running | Paused | Ready | Standby
    | Waiting | Pending | Aborting | Concluded | Null

  datatype Verb = Cancel | Pause | Resume | Finalize | Dismiss

  /** The status transition table. */
  predicate Allowed(s0: Status, s1: Status)
  {
    || (s0.Undefined? && s1.Created?)
    || (s0.Created? && (s1.Running? || s1.Aborting? || s1.Null?))
    || (s0.Running? && (s1.Paused? || s1.Ready? || s1.Waiting? || s1.Aborting?))
    || (s0.Paused? && s1.Running?)
    || (s0.Ready? && (s1.Standby? || s1.Waiting? || s1.Aborting?))
    || (s0.Standby? && s1.Ready?)
    || (s0.Waiting? && (s1.Pending? || s1.Aborting?))
    || (s0.Pending? && (s1.Aborting? || s1.Concluded?))
    || (s0.Aborting? && (s1.Aborting? || s1.Concluded?))
    || (s0.Concluded? && s1.Null?)
  }

  /** The statuses in which a user's verb is accepted. */
  predicate Accepts(v: Verb, s: Status)
  {
    match v
    case Cancel => !(s.Undefined? || s.Aborting? || s.Concluded? || s.Null?)
    case Pause => s.Created? || s.Running? || s.Paused? || s.Ready? || s.Standby?
    case Resume => s.Created? || s.Running? || s.Paused? || s.Ready? || s.Standby?
    case Finalize => s.Pending?
    case Dismiss => s.Concluded?
  }

  // ---- The two tables, row by row ----------------------------------------------

  function Row(s: Status): (r: nat)
    ensures r < 11
  {
    match s
    case Undefined => 0
    case Created => 1
    case Running => 2
    case Paused => 3
    case Ready => 4
    case Standby => 5
    case Waiting => 6
    case Pending => 7
    case Aborting => 8
    case Concluded => 9
    case Null => 10
  }

  function StatusRow(s: Status): string
  {
    match s
    case Undefined => "01000000000"
    case Created => "00100000101"
    case Running => "00011010100"
    case Paused => "00100000000"
    case Ready => "00000110100"
    case Standby => "00001000000"
    case Waiting => "00000001100"
    case Pending => "00000000110"
    case Aborting => "00000000110"
    case Concluded => "00000000001"
    case Null => "00000000000"
  }

  function VerbRow(v: Verb): string
  {
    match v
    case Cancel => "01111111000"
    case Pause => "01111100000"
    case Resume => "01111100000"
    case Finalize => "00000001000"
    case Dismiss => "00000000010"
  }

  /** Transitions are allowed where the table has a one. */
  lemma StatusTable(s0: Status, s1: Status)
    ensures |StatusRow(s0)| == 11 && (Allowed(s0, s1) <==> StatusRow(s0)[Row(s1)] == '1')
  {
  }

  /** ... and verbs. */
  lemma VerbTable(v: Verb, s: Status)
    ensures |VerbRow(v)| == 11 && (Accepts(v, s) <==> VerbRow(v)[Row(s)] == '1')
  {
  }

  predicate Completed(s: Status)
  {
    s.Waiting? || s.Pending? || s.Aborting? || s.Concluded? || s.Null?
  }

  /** Which of the driver's two final callbacks ran. */
  datatype Outcome = Undecided | Committed | Aborted

  const ECANCELED := 125

  /** `drains` counts the pauses that drained nodes hold on the job. */
  datatype Job = Job(
    status: Status,
    ret: int,
    started: bool,
    deferred: bool,
    cancelled: bool,
    forceCancel: bool,
    pauseCount: nat,
    userPaused: bool,
    drains: nat,
    iostatusOk: bool,
    autoFinalize: bool,
    autoDismiss: bool,
    outcome: Outcome)

  function Count(b: bool): nat { if b then 1 else 0 }

  /** What holds of every job between two handlers, whatever its transaction does. */
  predicate PauseOk(j: Job)
  {
    && j.pauseCount == Count(!j.started) + Count(j.userPaused) + j.drains
    && (!j.iostatusOk ==> j.userPaused)
  }

  // ---- Steps of one job ------------------------------------------------------

  function Moved(j: Job, s: Status): Job
    requires Allowed(j.status, s)
  {
    j.(status := s)
  }

  /** A cancelled job fails; a failed job turns to aborting. */
  function UpdateRc(j: Job): (r: Job)
    requires j.ret != 0 || j.cancelled ==> Allowed(j.status, Aborting)
    ensures r == j.(ret := r.ret, status := if r.ret == 0 then j.status else Aborting)
    ensures r.ret == (if j.ret == 0 && j.cancelled then -125 else j.ret) && (r.ret == 0 <==> WillCommit(j))
  {
    var j1 := if j.ret == 0 && j.cancelled then j.(ret := -ECANCELED) else j;
    if j1.ret != 0 then Moved(j1, Aborting) else j1
  }

  /** The user's pause ends with the cancellation, after the driver's resume callback
      has had its chance to clear the I/O status. */
  function CancelAsync(j: Job, force: bool): (r: Job)
    requires PauseOk(j)
    ensures PauseOk(r) && r.cancelled && !r.userPaused && r.forceCancel == (j.forceCancel || force)
    ensures r == j.(cancelled := true, forceCancel := r.forceCancel, userPaused := false,
                    pauseCount := r.pauseCount, iostatusOk := r.iostatusOk)
  {
    var j1 := if j.userPaused then ResetIostatus(j).(userPaused := false, pauseCount := j.pauseCount - 1) else j;
    j1.(cancelled := true, forceCancel := j.forceCancel || force)
  }

  function ResetIostatus(j: Job): (r: Job)
    requires !j.iostatusOk ==> j.userPaused && j.pauseCount > 0
  {
    j.(iostatusOk := true)
  }

  /** A job that the finalization of its transaction may meet. */
  predicate Finalizable(j: Job)
  {
    && j.outcome.Undecided?
    && (j.status.Pending? || (j.status.Aborting? && j.ret != 0) || (j.status.Waiting? && (j.cancelled || j.ret != 0)))
  }

  predicate WillCommit(j: Job)
  {
    j.ret == 0 && !j.cancelled
  }

  /** Exactly one of the commit and abort callbacks runs. */
  function Decided(j: Job): (r: Job)
    requires Finalizable(j)
    ensures r == j.(status := r.status, ret := r.ret, outcome := r.outcome)
    ensures r.outcome == if WillCommit(j) then Committed else Aborted
    ensures r.outcome.Committed? <==> r.ret == 0
    ensures Allowed(r.status, Concluded)
  {
    var j1 := UpdateRc(j);
    j1.(outcome := if j1.ret == 0 then Committed else Aborted)
  }

  function Concluding(j: Job): (r: Job)
    requires Allowed(j.status, Concluded)
    ensures r.status == if j.autoDismiss || !j.started then Null else Concluded
    ensures r == j.(status := r.status, deferred := r.deferred)
  {
    var j1 := Moved(j, Concluded);
    if j.autoDismiss || !j.started then Moved(j1, Null).(deferred := true) else j1
  }

  function Finalized(j: Job): (r: Job)
    requires Finalizable(j)
    ensures r.outcome == if WillCommit(j) then Committed else Aborted
    ensures PauseOk(j) ==> FinalizedJob(r)
  {
    Concluding(Decided(j))
  }

  // ---- Phases of the transaction ---------------------------------------------

  /** A job that has not completed, or waits for the others. */
  predicate ActiveJob(j: Job)
  {
    && PauseOk(j) && j.outcome.Undecided?
    && match j.status
       case Created => !j.started && !j.deferred && !j.cancelled && j.ret == 0
       case Running => j.started && (j.deferred || j.ret == 0)
       case Ready => j.started && (j.deferred || j.ret == 0)
       case Paused => j.started && !j.deferred && j.ret == 0
       case Standby => j.started && !j.deferred && j.ret == 0
       case Waiting => j.started && j.deferred && !j.cancelled && j.ret == 0
       case _ => false
  }

  predicate PendingJob(j: Job)
  {
    PauseOk(j) && j.outcome.Undecided? && j.status.Pending? && j.started && j.deferred && !j.cancelled && j.ret == 0
  }

  predicate DoneJob(j: Job)
  {
    && PauseOk(j) && !j.outcome.Undecided? && (j.outcome.Committed? <==> j.ret == 0)
    && (j.status.Concluded? || j.status.Null?)
  }

  /** Finalized, and dismissed exactly if nobody is to look at it any more. */
  predicate FinalizedJob(j: Job)
  {
    DoneJob(j) && (j.status.Null? <==> j.autoDismiss || !j.started)
  }

  type JobId = nat

  /** `list` names every job exactly once. */
  ghost predicate Everyone(n: nat, list: seq<JobId>)
  {
    && (forall k | 0 <= k < n :: k in list)
    && Within(list, n)
    && Distinct(list)
  }

  ghost predicate Within(list: seq<JobId>, n: nat)
  {
    forall a {:trigger list[a]} | 0 <= a < |list| :: list[a] < n
  }

  ghost predicate Distinct(list: seq<JobId>)
  {
    forall a, b {:trigger list[a], list[b]} | 0 <= a < b < |list| :: list[a] != list[b]
  }

  ghost predicate ActivePhase(jobs: seq<Job>, list: seq<JobId>)
  {
    && Everyone(|jobs|, list)
    && (forall k {:trigger jobs[k]} | 0 <= k < |jobs| :: ActiveJob(jobs[k]))
    && (exists k :: 0 <= k < |jobs| && !Completed(jobs[k].status))
  }

  ghost predicate PendingPhase(jobs: seq<Job>, list: seq<JobId>)
  {
    && Everyone(|jobs|, list)
    && (forall k {:trigger jobs[k]} | 0 <= k < |jobs| :: PendingJob(jobs[k]))
    && (exists k :: 0 <= k < |jobs| && !jobs[k].autoFinalize)
  }

  /** The transaction is over: all committed, or all aborted, or one job committed
      because another one failed to prepare while the first one finalized them. */
  ghost predicate DonePhase(jobs: seq<Job>, list: seq<JobId>, prepare: JobId -> int)
  {
    && list == []
    && (forall k {:trigger jobs[k]} | 0 <= k < |jobs| :: DoneJob(jobs[k]))
    && Agreed(jobs, prepare)
  }

  ghost predicate Agreed(jobs: seq<Job>, prepare: JobId -> int)
  {
    || (forall k {:trigger jobs[k]} | 0 <= k < |jobs| :: jobs[k].outcome.Committed?)
    || (forall k {:trigger jobs[k]} | 0 <= k < |jobs| :: jobs[k].outcome.Aborted?)
    || exists i :: Split(jobs, prepare, i)
  }

  /** Job `i` committed alone; some other job's preparation failed. */
  ghost predicate Split(jobs: seq<Job>, prepare: JobId -> int, i: JobId)
  {
    && i < |jobs| && jobs[i].outcome.Committed?
    && (forall k {:trigger jobs[k]} | 0 <= k < |jobs| && k != i :: jobs[k].outcome.Aborted?)
    && (exists k :: 0 <= k < |jobs| && k != i && prepare(k) != 0)
  }

  // ---- Aborting --------------------------------------------------------------

  /** A started job whose coroutine has not ended the job yet. */
  predicate Lively(j: Job)
  {
    j.started && (j.status.Running? || j.status.Ready? || j.status.Paused? || j.status.Standby?)
  }

  /** A job the abort of its transaction still has to finalize. */
  predicate Doomed(j: Job)
  {
    && PauseOk(j) && j.outcome.Undecided?
    && (Finalizable(j) || (j.cancelled && (Lively(j) || (j.status.Created? && !j.started))))
  }

  predicate SameButPause(j0: Job, j1: Job)
  {
    j1 == j0.(pauseCount := j1.pauseCount, userPaused := j1.userPaused, drains := j1.drains,
      iostatusOk := j1.iostatusOk)
  }

  /** What a job may have turned into while the abort waited for another one: it was
      paused or resumed, or, as a started job, it went on in whatever way, still
      cancelled, and may have ended. */
  predicate Ended(j0: Job, j1: Job)
  {
    && (PauseOk(j0) ==> PauseOk(j1))
    && (|| SameButPause(j0, j1)
        || (Lively(j0) && j0.cancelled && Doomed(j1) && j1.cancelled && j1.started &&
          (Lively(j1) || j1.status.Aborting?)))
  }

  lemma EndedTrans(j0: Job, j1: Job, j2: Job)
    requires Ended(j0, j1) && Ended(j1, j2) && PauseOk(j0)
    ensures Ended(j0, j2)
  {
  }

  ghost predicate EndedAll(s0: seq<Job>, s1: seq<Job>)
  {
    |s0| == |s1| && forall k {:trigger s1[k]} {:trigger s0[k]} | 0 <= k < |s0| :: Ended(s0[k], s1[k])
  }

  /** Jobs in the list are still to be finalized, the others were; `commits` says
      which of them, if any, is the one that commits. */
  ghost predicate AbortInv(jobs: seq<Job>, list: seq<JobId>, id: JobId, commits: bool)
  {
    && Distinct(list)
    && Within(list, |jobs|)
    && forall k {:trigger jobs[k]} | 0 <= k < |jobs| ::
         if k in list then Doomed(jobs[k]) && (WillCommit(jobs[k]) <==> k == id && commits)
         else FinalizedJob(jobs[k]) && (jobs[k].outcome.Committed? <==> k == id && commits)
  }

  ghost predicate SomeUnstarted(jobs: seq<Job>, id: JobId)
  {
    exists k :: 0 <= k < |jobs| && k != id && jobs[k].status.Created?
  }

  /** The state in which a job, `id`, may abort its transaction. */
  ghost predicate AbortReady(jobs: seq<Job>, list: seq<JobId>, id: JobId)
  {
    && Everyone(|jobs|, list) && id < |jobs| && Doomed(jobs[id]) && !jobs[id].status.Created?
    && forall k {:trigger jobs[k]} | 0 <= k < |jobs| && k != id :: Victim(jobs[k])
  }

  predicate Victim(j: Job)
  {
    ActiveJob(j) || PendingJob(j) || (Doomed(j) && j.status.Aborting?)
  }

  ghost predicate AbortDone(jobs: seq<Job>, id: JobId, commits: bool)
  {
    forall k {:trigger jobs[k]} | 0 <= k < |jobs| ::
      FinalizedJob(jobs[k]) && (jobs[k].outcome.Committed? <==> k == id && commits)
  }

  lemma VictimCancelled(j: Job)
    requires Victim(j)
    ensures PauseOk(j) && Doomed(CancelAsync(j, false)) && !WillCommit(CancelAsync(j, false))
    ensures CancelAsync(j, false).status == j.status
  {
  }

  /** Cancelling the others, `i` of them so far. */
  ghost predicate CancelInv(j0: seq<Job>, jobs: seq<Job>, list: seq<JobId>, id: JobId, i: nat)
  {
    && |jobs| == |j0| && i <= |list|
    && forall k {:trigger jobs[k]} | 0 <= k < |jobs| ::
         jobs[k] == if k in list[..i] && k != id && PauseOk(j0[k]) then CancelAsync(j0[k], false) else j0[k]
  }

  lemma CancelledAll(j0: seq<Job>, jobs: seq<Job>, list: seq<JobId>, id: JobId)
    requires AbortReady(j0, list, id) && CancelInv(j0, jobs, list, id, |list|)
    ensures AbortInv(jobs, list, id, WillCommit(j0[id]))
    ensures SomeUnstarted(jobs, id) <==> SomeUnstarted(j0, id)
    ensures !jobs[id].status.Created?
  {
    assert list[..|list|] == list;
    forall k | 0 <= k < |jobs|
      ensures Doomed(jobs[k]) && (WillCommit(jobs[k]) <==> k == id && WillCommit(j0[id]))
      ensures jobs[k].status == j0[k].status
    {
      if k != id {
        assert Victim(j0[k]);
        VictimCancelled(j0[k]);
      }
    }
    if SomeUnstarted(j0, id) {
      var k :| 0 <= k < |j0| && k != id && j0[k].status.Created?;
      assert jobs[k].status.Created?;
    }
    if SomeUnstarted(jobs, id) {
      var k :| 0 <= k < |jobs| && k != id && jobs[k].status.Created?;
      assert j0[k].status.Created?;
    }
  }

  lemma EndedKeeps(s0: seq<Job>, s1: seq<Job>, list: seq<JobId>, id: JobId, commits: bool)
    requires AbortInv(s0, list, id, commits) && EndedAll(s0, s1)
    ensures AbortInv(s1, list, id, commits)
    ensures forall k {:trigger s1[k]} | 0 <= k < |s1| :: s1[k].status.Created? <==> s0[k].status.Created?
  {
  }

  lemma FinalizedKeeps(s0: seq<Job>, list: seq<JobId>, id: JobId, commits: bool)
    requires list != [] && AbortInv(s0, list, id, commits) && Finalizable(s0[list[0]])
    ensures AbortInv(s0[list[0] := Finalized(s0[list[0]])], list[1..], id, commits)
    ensures forall k | k in list :: k == list[0] || k in list[1..]
    ensures list[0] !in list[1..]
  {
  }
}
