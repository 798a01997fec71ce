// Leases told from the history alone: who holds a task, since when, and what ends the hold.

module Leases {
  import opened Tasks
  import opened Machine
  import opened Invariants

  predicate Claims(e: Event, t: TaskId) {
    e.Claim? && e.task == t
  }

  /** Accepted calls by which a worker ends its own hold on t. */
  predicate EndsHold(e: Event) {
    e.OpenPR? || e.ReportSuccess? || e.ReportFailure?
  }

  predicate GivesUp(e: Event, t: TaskId) {
    EndsHold(e) && e.task == t
  }

  predicate ReapsRow(s: Db, e: Event, t: TaskId) {
    e.Reap? && t in s.rows && Stale(s.rows[t], s.now, e.visibility)
  }

  predicate Releases(s: Db, e: Event, t: TaskId) {
    GivesUp(e, t) || ReapsRow(s, e, t)
  }

  /** Accepted calls that renew the lease on t. */
  predicate Refreshes(e: Event, t: TaskId) {
    (e.Claim? || e.Heartbeat? || e.Progress? || e.AppendLog? || e.SetJira?) && e.task == t
  }

  /** Calls that only the holder may make. */
  predicate HolderCall(e: Event) {
    e.Heartbeat? || e.Progress? || e.AppendLog? || e.SetJira? || EndsHold(e)
  }

  predicate Held(s: Db, t: TaskId) {
    t in s.rows && Active(s.rows[t])
  }

  /** The index of the claim whose hold on t is still running after the first k events. */
  ghost function HeldSince(run: Run, k: nat, t: TaskId): (i: Option<nat>)
    requires Valid(run) && k <= |run.events|
    ensures i.Some? ==> i.value < k && Claims(run.events[i.value], t)
  {
    if k == 0 then None
    else if Claims(run.events[k - 1], t) then Some(k - 1)
    else if Releases(run.states[k - 1], run.events[k - 1], t) then None
    else HeldSince(run, k - 1, t)
  }

  /** HeldSince reads the history as intended: a claim, and no later claim or release. */
  lemma {:induction false} HeldSinceMeans(run: Run, k: nat, t: TaskId, i: nat)
    requires Valid(run) && i < k <= |run.events|
    ensures HeldSince(run, k, t) == Some(i) <==>
            && Claims(run.events[i], t)
            && forall j :: i < j < k ==> !Claims(run.events[j], t) && !Releases(run.states[j], run.events[j], t)
  {
    if i < k - 1 {
      HeldSinceMeans(run, k - 1, t, i);
    }
  }

  /** What an accepted event does to the lease of a row that is there before and after. */
  lemma TouchOnLease(s: Db, e: Event, t: TaskId)
    requires t in s.rows && Accepts(s, e) && e != Delete(t)
    ensures var r, r' := s.rows[t], Touch(s.now, e, t, s.rows[t]);
            && (Claims(e, t) ==> !Active(r) && r' == Taken(r, e.worker, s.now))
            && (Releases(s, e, t) ==> Active(r) && !Active(r'))
            && (!Claims(e, t) && !Releases(s, e, t) ==> (Active(r') <==> Active(r)))
            && (!Claims(e, t) && Active(r') ==>
                  r'.claimedBy == r.claimedBy && r'.claimedAt == r.claimedAt && r'.attempts == r.attempts)
  {
  }

  lemma LeaseStep(s: Db, e: Event, s': Db, t: TaskId)
    requires Step(s, e, s')
    ensures if Claims(e, t) then !Held(s, t) && Held(s', t)
            else if Releases(s, e, t) then Held(s, t) && !Held(s', t)
            else Held(s', t) <==> Held(s, t)
    ensures Claims(e, t) ==> t in s.rows && s'.rows[t] == Taken(s.rows[t], e.worker, s.now)
    ensures Held(s, t) && Held(s', t) ==>
              && s'.rows[t].claimedBy == s.rows[t].claimedBy && s'.rows[t].claimedAt == s.rows[t].claimedAt
              && s'.rows[t].attempts == s.rows[t].attempts
  {
    RowComesOrGoes(s, e, s', t);
    if t in s.rows && t in s'.rows {
      RowAfter(s, e, s', t);
      TouchOnLease(s, e, t);
    }
  }

  /** The claim columns are exactly what the history says: the row is active if and only if a
      claim is still held, and then they carry that claim's worker, time and attempt number. */
  lemma {:induction false} LeaseIsHistory(run: Run, k: nat, t: TaskId)
    requires Valid(run) && k <= |run.events|
    ensures Held(run.states[k], t) <==> HeldSince(run, k, t).Some?
    ensures HeldSince(run, k, t).Some? ==>
              var i := HeldSince(run, k, t).value;
              var r := run.states[k].rows[t];
              && r.claimedBy == Some(run.events[i].worker)
              && r.claimedAt == Some(run.states[i].now)
              && t in run.states[i].rows && r.attempts == run.states[i].rows[t].attempts + 1
  {
    if k > 0 {
      LeaseIsHistory(run, k - 1, t);
      assert StepAt(run, k - 1);
      LeaseStep(run.states[k - 1], run.events[k - 1], run.states[k], t);
    }
  }

  /** Every accepted worker call is made under a claim of that task by that worker, with no
      other claim and no release of the task in between. */
  lemma HolderCallsFollowClaim(run: Run, k: nat)
    requires Valid(run) && k < |run.events| && HolderCall(run.events[k])
    ensures var e := run.events[k];
            exists i :: 0 <= i < k && run.events[i] == Claim(e.worker, e.task)
                        && forall j :: i < j < k ==> !Claims(run.events[j], e.task)
                                                     && !Releases(run.states[j], run.events[j], e.task)
  {
    var e := run.events[k];
    assert StepAt(run, k);
    LeaseIsHistory(run, k, e.task);
    var i := HeldSince(run, k, e.task).value;
    HeldSinceMeans(run, k, e.task, i);
    assert run.events[i] == Claim(e.worker, e.task);
  }

  /** Claims and releases of one task strictly alternate, a claim first. */
  lemma ClaimsAlternateWithReleases(run: Run, k: nat, t: TaskId)
    requires Valid(run) && k < |run.events|
    ensures Claims(run.events[k], t) ==> HeldSince(run, k, t) == None
    ensures Releases(run.states[k], run.events[k], t) ==> HeldSince(run, k, t).Some?
  {
    assert StepAt(run, k);
    LeaseIsHistory(run, k, t);
  }

  /** Two claims of one task have exactly one release between them. */
  lemma OneReleaseBetweenClaims(run: Run, i: nat, k: nat, t: TaskId)
    requires Valid(run) && i < k < |run.events|
    requires Claims(run.events[i], t) && Claims(run.events[k], t)
    requires forall j :: i < j < k ==> !Claims(run.events[j], t)
    ensures exists j :: i < j < k && Releases(run.states[j], run.events[j], t)
    ensures forall j, l :: i < j < l < k && Releases(run.states[j], run.events[j], t) ==>
                             !Releases(run.states[l], run.events[l], t)
  {
    ClaimsAlternateWithReleases(run, k, t);
    HeldSinceMeans(run, k, t, i);
    forall j, l | i < j < l < k && Releases(run.states[j], run.events[j], t)
                  && Releases(run.states[l], run.events[l], t)
      ensures false
    {
      ClaimsAlternateWithReleases(run, l, t);
      var c := HeldSince(run, l, t).value;
      HeldSinceMeans(run, l, t, c);
    }
  }

  // ---- what nobody else can do to a held or parked task ----

  /** From one state to any later one: unless its holder gives it up or the reaper takes it,
      a held task stays in the table, held by the same worker under the same claim. */
  lemma {:induction false} LeaseSurvives(run: Run, i: nat, k: nat, t: TaskId)
    requires Valid(run) && i <= k <= |run.events| && Held(run.states[i], t)
    requires forall j :: i <= j < k ==> !Releases(run.states[j], run.events[j], t)
    ensures Held(run.states[k], t)
    ensures var r, r' := run.states[i].rows[t], run.states[k].rows[t];
            && r'.claimedBy == r.claimedBy && r'.claimedAt == r.claimedAt
            && r'.attempts == r.attempts && r'.maxAttempts == r.maxAttempts
            && r'.priority == r.priority && r'.payload == r.payload
            && (r.status.InProgress? ==> r'.status.InProgress?)
    decreases k
  {
    if i < k {
      LeaseSurvives(run, i, k - 1, t);
      assert StepAt(run, k - 1);
      RowComesOrGoes(run.states[k - 1], run.events[k - 1], run.states[k], t);
      RowAfter(run.states[k - 1], run.events[k - 1], run.states[k], t);
    }
  }

  /** One step by anyone but the holder, the reaper apart, leaves a held row's lease as it was;
      the only columns such a step can write are the two reference links and updated_at. */
  lemma OthersOnlyRelink(s: Db, e: Event, s': Db, t: TaskId)
    requires Step(s, e, s') && Held(s, t) && !ReapsRow(s, e, t)
    requires HolderCall(e) && e.task == t ==> s.rows[t].claimedBy != Some(e.worker)
    ensures t in s'.rows
    ensures var r, r' := s.rows[t], s'.rows[t];
            r' == r.(jiraUrl := r'.jiraUrl, prUrl := r'.prUrl, updatedAt := r'.updatedAt)
    ensures s'.rows[t] != s.rows[t] ==> e.UpdateLinks? && e.task == t
  {
    RowComesOrGoes(s, e, s', t);
    RowAfter(s, e, s', t);
  }

  /** A parked task leaves parking only through FinalizeTask. */
  lemma {:induction false} ParkedUntilFinalized(run: Run, i: nat, k: nat, t: TaskId)
    requires Valid(run) && i <= k <= |run.events|
    requires t in run.states[i].rows && Parked(run.states[i].rows[t])
    requires forall j :: i <= j < k ==> !(run.events[j].Finalize? && run.events[j].task == t)
    ensures t in run.states[k].rows && Parked(run.states[k].rows[t])
    ensures run.states[k].rows[t].attempts == run.states[i].rows[t].attempts
    ensures run.states[i].rows[t].status.ReviewRequested? ==> run.states[k].rows[t].status.ReviewRequested?
    decreases k
  {
    if i < k {
      ParkedUntilFinalized(run, i, k - 1, t);
      assert StepAt(run, k - 1);
      RowComesOrGoes(run.states[k - 1], run.events[k - 1], run.states[k], t);
      RowAfter(run.states[k - 1], run.events[k - 1], run.states[k], t);
    }
  }

  // ---- what the reaper may take ----

  ghost function LastRefresh(run: Run, k: nat, t: TaskId): (m: Option<nat>)
    requires k <= |run.events|
    ensures m.Some? ==> m.value < k && Refreshes(run.events[m.value], t)
    ensures m.Some? ==> forall j :: m.value < j < k ==> !Refreshes(run.events[j], t)
    ensures m.None? ==> forall j :: 0 <= j < k ==> !Refreshes(run.events[j], t)
  {
    if k == 0 then None
    else if Refreshes(run.events[k - 1], t) then Some(k - 1)
    else LastRefresh(run, k - 1, t)
  }

  /** The heartbeat column of a held task is the time of its last accepted refreshing call. */
  lemma {:induction false} HeartbeatIsLastRefresh(run: Run, k: nat, t: TaskId)
    requires Valid(run) && k <= |run.events| && Held(run.states[k], t)
    ensures LastRefresh(run, k, t).Some?
    ensures run.states[k].rows[t].heartbeatAt == Some(run.states[LastRefresh(run, k, t).value].now)
  {
    LeaseIsHistory(run, k, t);
    assert k > 0;
    assert StepAt(run, k - 1);
    var s, e, s' := run.states[k - 1], run.events[k - 1], run.states[k];
    ReachableInv(run, k - 1);
    RowComesOrGoes(s, e, s', t);
    RowAfter(s, e, s', t);
    if !Refreshes(e, t) {
      HeartbeatIsLastRefresh(run, k - 1, t);
    }
  }

  /** The reaper takes exactly the held tasks whose last refresh is older than the window. */
  lemma ReapedIffUnrefreshed(run: Run, k: nat, t: TaskId)
    requires Valid(run) && k < |run.events| && run.events[k].Reap?
    ensures var cutoff := run.states[k].now - run.events[k].visibility;
            Releases(run.states[k], run.events[k], t) <==>
            && HeldSince(run, k, t).Some?
            && forall i :: 0 <= i < k && Refreshes(run.events[i], t) ==> run.states[i].now < cutoff
  {
    var cutoff := run.states[k].now - run.events[k].visibility;
    LeaseIsHistory(run, k, t);
    if Held(run.states[k], t) {
      HeartbeatIsLastRefresh(run, k, t);
      var m := LastRefresh(run, k, t).value;
      forall i | 0 <= i < k && Refreshes(run.events[i], t)
        ensures run.states[i].now <= run.states[m].now
      {
        ClockForward(run, i, m);
      }
    }
  }

  /** A holder that has refreshed within every window the reaper looks at keeps its claim. */
  lemma RefreshingHolderIsNeverReaped(run: Run, i: nat, k: nat, t: TaskId)
    requires Valid(run) && i <= k <= |run.events| && Held(run.states[i], t)
    requires forall j :: i <= j < k ==> !GivesUp(run.events[j], t)
    requires forall j :: i <= j < k && run.events[j].Reap? ==>
               exists m :: 0 <= m < j && Refreshes(run.events[m], t)
                           && run.states[m].now >= run.states[j].now - run.events[j].visibility
    ensures Held(run.states[k], t) && run.states[k].rows[t].claimedBy == run.states[i].rows[t].claimedBy
    ensures run.states[k].rows[t].attempts == run.states[i].rows[t].attempts
  {
    forall j | i <= j < k
      ensures !Releases(run.states[j], run.events[j], t)
    {
      if run.events[j].Reap? {
        ReapedIffUnrefreshed(run, j, t);
      }
    }
    LeaseSurvives(run, i, k, t);
  }

  // ---- whose note is it ----

  /** A progress note on a held task was written during the present hold: claiming wipes the
      notes of earlier holders, so a note is never shown under a worker that did not write it. */
  lemma {:induction false} NoteIsFromThisHold(run: Run, k: nat, t: TaskId)
    requires Valid(run) && k <= |run.events| && Held(run.states[k], t)
    requires run.states[k].rows[t].note.Some?
    ensures HeldSince(run, k, t).Some?
    ensures var i := HeldSince(run, k, t).value;
            exists j :: i < j < k && run.events[j] == Progress(run.events[i].worker, t,
                                                               run.states[k].rows[t].note.value)
  {
    LeaseIsHistory(run, k, t);
    assert StepAt(run, k - 1);
    var s, e, s' := run.states[k - 1], run.events[k - 1], run.states[k];
    RowComesOrGoes(s, e, s', t);
    RowAfter(s, e, s', t);
    ReachableInv(run, k - 1);
    if e.Progress? && e.task == t {
      LeaseIsHistory(run, k - 1, t);
    } else {
      NoteIsFromThisHold(run, k - 1, t);
    }
  }
}
