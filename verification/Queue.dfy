// The queue as its users see it: which task a claim takes, when a task becomes due, and which calls
// are accepted, told on the columns and on the history.

module Queue {
  import opened Tasks
  import opened Machine
  import opened Invariants
  import opened Leases
  import opened Columns

  /** In the queue, and its time has come. */
  predicate Due(r: Task, now: Time) {
    r.status == Pending && (r.scheduledFor == None || (r.scheduledFor.Some? && r.scheduledFor.value <= now))
  }

  // ---- which task ----

  /** A claim takes a due task, and among the due tasks one of the highest priority, and among those
      one that was created first. */
  lemma ClaimTakesBest(s: Db, w: WorkerId, t: TaskId, u: TaskId)
    requires Accepts(s, Claim(w, t))
    ensures t in s.rows && Due(s.rows[t], s.now)
    ensures u in s.rows && Due(s.rows[u], s.now) ==>
              || s.rows[u].priority < s.rows[t].priority
              || (s.rows[u].priority == s.rows[t].priority && s.rows[t].createdAt <= s.rows[u].createdAt)
  {
  }

  lemma {:induction false} SomeBest(s: Db, ids: set<TaskId>) returns (t: TaskId)
    requires ids != {} && forall u :: u in ids ==> u in s.rows && Eligible(s.rows[u], s.now)
    ensures t in ids && forall u :: u in ids ==> !Before(s.rows[u], s.rows[t])
    decreases |ids|
  {
    t :| t in ids;
    if ids - {t} != {} {
      var b := SomeBest(s, ids - {t});
      if !Before(s.rows[t], s.rows[b]) {
        t := b;
      }
    }
  }

  /** A worker asking for work gets some if and only if some task is due: no due task keeps another
      from being handed out. */
  lemma ClaimPossibleIff(s: Db, w: WorkerId)
    ensures (exists t :: Accepts(s, Claim(w, t))) <==> (exists t :: t in s.rows && Due(s.rows[t], s.now))
  {
    if t :| Accepts(s, Claim(w, t)) {
      assert Due(s.rows[t], s.now);
    }
    var due := set t | t in s.rows && Eligible(s.rows[t], s.now);
    if t :| t in s.rows && Due(s.rows[t], s.now) {
      assert t in due;
      var b := SomeBest(s, due);
      assert Accepts(s, Claim(w, b));
    }
  }

  // ---- when ----

  /** Calls after which t may no longer wait where it waited. */
  predicate Disturbs(e: Event, t: TaskId) {
    (e.Claim? || e.Update? || e.Requeue? || e.Delete?) && e.task == t
  }

  lemma WaitStep(s: Db, e: Event, s': Db, t: TaskId)
    requires Step(s, e, s') && t in s.rows && s.rows[t].status == Pending && !Disturbs(e, t)
    ensures t in s'.rows && s'.rows[t].status == Pending && s'.rows[t].scheduledFor == s.rows[t].scheduledFor
  {
    RowComesOrGoes(s, e, s', t);
    RowAfter(s, e, s', t);
  }

  lemma {:induction false} WaitsAsScheduled(run: Run, i: nat, k: nat, t: TaskId)
    requires Valid(run) && i <= k <= |run.events|
    requires t in run.states[i].rows && run.states[i].rows[t].status == Pending
    requires forall j :: i <= j < k ==> !Disturbs(run.events[j], t)
    ensures t in run.states[k].rows && run.states[k].rows[t].status == Pending
    ensures run.states[k].rows[t].scheduledFor == run.states[i].rows[t].scheduledFor
    decreases k
  {
    if i < k {
      WaitsAsScheduled(run, i, k - 1, t);
      assert StepAt(run, k - 1);
      WaitStep(run.states[k - 1], run.events[k - 1], run.states[k], t);
    }
  }

  /** After a failed attempt with attempts left, reported or reaped alike, the task waits exactly
      thirty seconds for every attempt made: as long as nobody claims or changes it, it is due from
      that moment on and not before. */
  lemma RetryWaitsExactly(run: Run, i: nat, k: nat, t: TaskId)
    requires Valid(run) && i < k <= |run.events| && Retries(run.states[i], run.events[i], t)
    requires forall j :: i < j < k ==> !Disturbs(run.events[j], t)
    ensures t in run.states[k].rows && run.states[k].rows[t].status == Pending
    ensures Due(run.states[k].rows[t], run.states[k].now) <==>
            run.states[i].now + run.states[i].rows[t].attempts * 30_000_000 <= run.states[k].now
  {
    assert StepAt(run, i);
    RetryIsQueued(run.states[i], run.events[i], run.states[i + 1], t);
    WaitsAsScheduled(run, i + 1, k, t);
  }

  lemma RetryIsQueued(s: Db, e: Event, s': Db, t: TaskId)
    requires Step(s, e, s') && Retries(s, e, t)
    ensures t in s'.rows && s'.rows[t].status == Pending
    ensures s'.rows[t].scheduledFor == Some(s.now + s.rows[t].attempts * 30_000_000)
    ensures s'.rows[t].lastError == Some(if e.Reap? then "lease expired" else e.error)
  {
    RowComesOrGoes(s, e, s', t);
    StepOnColumn(s, e, s', t, STATUS);
    StepOnColumn(s, e, s', t, SCHEDULED_FOR);
    StepOnColumn(s, e, s', t, LAST_ERROR);
  }

  /** A failed attempt with no attempts left ends the task where it stands: failed, with the message,
      its schedule and its claim columns untouched. */
  lemma LastFailureEndsTask(s: Db, e: Event, s': Db, t: TaskId)
    requires Step(s, e, s') && FailsAttempt(s, e, t) && s.rows[t].attempts >= s.rows[t].maxAttempts
    ensures t in s'.rows && s'.rows[t].status == Failed
    ensures s'.rows[t].lastError == Some(if e.Reap? then "lease expired" else e.error)
    ensures s'.rows[t].scheduledFor == s.rows[t].scheduledFor && s'.rows[t].claimedBy == s.rows[t].claimedBy
    ensures s'.rows[t].claimedAt == s.rows[t].claimedAt && s'.rows[t].heartbeatAt == s.rows[t].heartbeatAt
  {
    RowComesOrGoes(s, e, s', t);
    StepOnColumn(s, e, s', t, STATUS);
    StepOnColumn(s, e, s', t, SCHEDULED_FOR);
    StepOnColumn(s, e, s', t, LAST_ERROR);
    StepOnColumn(s, e, s', t, CLAIMED_BY);
    StepOnColumn(s, e, s', t, CLAIMED_AT);
    StepOnColumn(s, e, s', t, LAST_HEARTBEAT_AT);
  }

  /** Either the clock has passed `at`, or the task still waits for it. */
  ghost predicate WaitsFor(s: Db, t: TaskId, at: Time) {
    at <= s.now || t !in s.rows || (s.rows[t].status == Pending && s.rows[t].scheduledFor == Some(at))
  }

  lemma {:induction false} WaitsForSchedule(run: Run, i: nat, k: nat, t: TaskId)
    requires Valid(run) && i < k <= |run.events|
    requires run.events[i].Create? && run.events[i].task == t && run.events[i].input.scheduledFor.Some?
    requires forall j :: i < j < k ==> !((run.events[j].Update? || run.events[j].Requeue?) && run.events[j].task == t)
    ensures t in run.states[k].known && WaitsFor(run.states[k], t, run.events[i].input.scheduledFor.value)
    decreases k
  {
    var s, e, s' := run.states[k - 1], run.events[k - 1], run.states[k];
    assert StepAt(run, k - 1);
    RowComesOrGoes(s, e, s', t);
    if i == k - 1 {
      StepOnColumn(s, e, s', t, STATUS);
      StepOnColumn(s, e, s', t, SCHEDULED_FOR);
    } else {
      WaitsForSchedule(run, i, k - 1, t);
      if Claims(e, t) {
        ClaimIsDue(s, e, t);
      }
      if t in s.rows && t in s'.rows && !Disturbs(e, t) && s.rows[t].status == Pending {
        WaitStep(s, e, s', t);
      }
    }
  }

  lemma ClaimIsDue(s: Db, e: Event, t: TaskId)
    requires Accepts(s, e) && Claims(e, t)
    ensures t in s.rows && Due(s.rows[t], s.now)
  {
  }

  /** A task created for later is never claimed before its time, however often it is tried, unless an
      operator edits or requeues it. */
  lemma NeverClaimedEarly(run: Run, i: nat, k: nat, t: TaskId)
    requires Valid(run) && i < k < |run.events| && Claims(run.events[k], t)
    requires run.events[i].Create? && run.events[i].task == t && run.events[i].input.scheduledFor.Some?
    requires forall j :: i < j < k ==> !((run.events[j].Update? || run.events[j].Requeue?) && run.events[j].task == t)
    ensures run.events[i].input.scheduledFor.value <= run.states[k].now
  {
    WaitsForSchedule(run, i, k, t);
    assert StepAt(run, k);
    ClaimIsDue(run.states[k], run.events[k], t);
  }

  // ---- which calls are accepted ----

  /** Calls of the holder that say it has begun. */
  predicate Begins(e: Event, t: TaskId) {
    (e.Heartbeat? || e.Progress? || e.AppendLog?) && e.task == t
  }

  lemma BeginStep(s: Db, e: Event, s': Db, t: TaskId)
    requires Step(s, e, s') && Held(s', t)
    ensures if Claims(e, t) then s'.rows[t].status == Claimed
            else if Begins(e, t) then s'.rows[t].status == InProgress
            else t in s.rows && s'.rows[t].status == s.rows[t].status
  {
    RowComesOrGoes(s, e, s', t);
    StepOnColumn(s, e, s', t, STATUS);
  }

  /** A held task is in progress, and not merely claimed, exactly when its holder has sent a
      heartbeat, a note or a log line during this hold; a JIRA link does not begin it. */
  lemma {:induction false} InProgressIff(run: Run, k: nat, t: TaskId)
    requires Valid(run) && k <= |run.events| && HeldSince(run, k, t).Some?
    ensures Held(run.states[k], t)
    ensures var i := HeldSince(run, k, t).value;
            run.states[k].rows[t].status == InProgress <==> exists j :: i < j < k && Begins(run.events[j], t)
  {
    LeaseIsHistory(run, k, t);
    assert StepAt(run, k - 1);
    BeginStep(run.states[k - 1], run.events[k - 1], run.states[k], t);
    if !Claims(run.events[k - 1], t) {
      InProgressIff(run, k - 1, t);
      var i := HeldSince(run, k, t).value;
      if Begins(run.events[k - 1], t) {
        assert i < k - 1 < k;
      }
    }
  }

  /** At every point of every run, a worker's call is accepted if and only if the running hold on the
      task is that worker's; to open a pull request it must also have begun, and give a URL. */
  lemma HolderCallAcceptedIff(run: Run, k: nat, e: Event)
    requires Valid(run) && k <= |run.events| && HolderCall(e)
    ensures Accepts(run.states[k], e) <==>
            && HeldSince(run, k, e.task).Some?
            && var i := HeldSince(run, k, e.task).value;
               && run.events[i].worker == e.worker
               && (e.OpenPR? ==> e.url != "" && exists j :: i < j < k && Begins(run.events[j], e.task))
  {
    LeaseIsHistory(run, k, e.task);
    if HeldSince(run, k, e.task).Some? {
      InProgressIff(run, k, e.task);
    }
  }

  /** Operators' calls look at the status of the task alone. */
  lemma OperatorCallAcceptedIff(s: Db, t: TaskId, success: bool, error: string, edit: Edit, jira: Option<string>,
      pr: Option<string>)
    ensures Accepts(s, RequestReview(t)) <==> t in s.rows && s.rows[t].status == PROpened
    ensures Accepts(s, Finalize(t, success, error)) <==>
            t in s.rows && s.rows[t].status in {PROpened, ReviewRequested}
    ensures Accepts(s, Update(t, edit)) <==> t in s.rows && s.rows[t].status == Pending
    ensures Accepts(s, UpdateLinks(t, jira, pr)) <==> t in s.rows
    ensures Accepts(s, Delete(t)) <==> t in s.rows && s.rows[t].status in {Pending, Completed, Failed}
    ensures Accepts(s, Requeue(t)) <==> t in s.rows && s.rows[t].status in {Pending, Completed, Failed}
  {
  }
}
