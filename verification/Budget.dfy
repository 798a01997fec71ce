// How often a task can run, how soon, and how much can happen to it before it settles.

module Budget {
  import opened Tasks
  import opened Machine
  import opened Invariants
  import opened Leases

  function Max(a: int, b: int): int {
    if a < b then b else a
  }

  /** Operator calls that restart or redraw the budget of t. */
  predicate Redraws(e: Event, t: TaskId) {
    (e.Update? || e.Requeue?) && e.task == t
  }

  ghost predicate Undisturbed(run: Run, t: TaskId, i: nat, k: nat)
    requires i <= k <= |run.events|
  {
    forall j :: i <= j < k ==> !Redraws(run.events[j], t)
  }

  ghost function ClaimCount(run: Run, t: TaskId, i: nat, k: nat): nat
    requires i <= k <= |run.events|
    decreases k
  {
    if i == k then 0
    else ClaimCount(run, t, i, k - 1) + (if Claims(run.events[k - 1], t) then 1 else 0)
  }

  predicate StatusMoves(s: Db, s': Db, t: TaskId) {
    t in s.rows && t in s'.rows && s.rows[t].status != s'.rows[t].status
  }

  ghost function StatusChanges(run: Run, t: TaskId, i: nat, k: nat): nat
    requires i <= k <= |run.events| && |run.states| == |run.events| + 1
    decreases k
  {
    if i == k then 0
    else StatusChanges(run, t, i, k - 1) + (if StatusMoves(run.states[k - 1], run.states[k], t) then 1 else 0)
  }

  // ---- claims ----

  /** How many more claims the row can see before an operator redraws its budget. */
  function ClaimsLeft(r: Task): nat {
    if r.status.Pending? then Max(1, r.maxAttempts - r.attempts)
    else if Active(r) then Max(0, r.maxAttempts - r.attempts)
    else 0
  }

  lemma StepSpendsClaims(s: Db, e: Event, s': Db, t: TaskId)
    requires Step(s, e, s') && t in s.rows && t in s'.rows && !Redraws(e, t)
    ensures ClaimsLeft(s'.rows[t]) + (if Claims(e, t) then 1 else 0) <= ClaimsLeft(s.rows[t])
    ensures s'.rows[t].attempts == s.rows[t].attempts + (if Claims(e, t) then 1 else 0)
    ensures s'.rows[t].maxAttempts == s.rows[t].maxAttempts
  {
    RowAfter(s, e, s', t);
  }

  lemma {:induction false} OnceDeletedStaysDeleted(run: Run, t: TaskId, i: nat, k: nat)
    requires Valid(run) && i <= k <= |run.events|
    requires t in run.states[i].known && t !in run.states[i].rows
    ensures t in run.states[k].known && t !in run.states[k].rows
    decreases k
  {
    if i < k {
      OnceDeletedStaysDeleted(run, t, i, k - 1);
      assert StepAt(run, k - 1);
    }
  }

  /** A task in the table at two points of a run is there at every point between. */
  lemma PresentBetween(run: Run, t: TaskId, i: nat, j: nat, k: nat)
    requires Valid(run) && i <= j <= k <= |run.events|
    requires t in run.states[i].rows && t in run.states[k].rows
    ensures t in run.states[j].rows
  {
    if t !in run.states[j].rows {
      KnownOnceThere(run, t, i, j);
      OnceDeletedStaysDeleted(run, t, j, k);
    }
  }

  lemma {:induction false} KnownOnceThere(run: Run, t: TaskId, i: nat, j: nat)
    requires Valid(run) && i <= j <= |run.events| && t in run.states[i].rows
    ensures t in run.states[j].known
    decreases j
  {
    if i == j {
      ReachableInv(run, i);
    } else {
      KnownOnceThere(run, t, i, j - 1);
      assert StepAt(run, j - 1);
    }
  }

  /** Whatever else happens, between two points with no edit and no requeue of t in between the
      claims accepted on t are paid for by its budget; for a pending task with count c and maximum
      m that is at most max(1, m - c) claims. */
  lemma {:induction false} ClaimsWithinBudget(run: Run, t: TaskId, i: nat, k: nat)
    requires Valid(run) && i <= k <= |run.events|
    requires t in run.states[i].rows && Undisturbed(run, t, i, k)
    ensures ClaimCount(run, t, i, k) <= ClaimsLeft(run.states[i].rows[t])
    ensures t in run.states[k].rows ==>
              && ClaimCount(run, t, i, k) + ClaimsLeft(run.states[k].rows[t]) <= ClaimsLeft(run.states[i].rows[t])
              && run.states[k].rows[t].attempts == run.states[i].rows[t].attempts + ClaimCount(run, t, i, k)
              && run.states[k].rows[t].maxAttempts == run.states[i].rows[t].maxAttempts
    decreases k
  {
    if i < k {
      ClaimsWithinBudget(run, t, i, k - 1);
      assert StepAt(run, k - 1);
      var s, e, s' := run.states[k - 1], run.events[k - 1], run.states[k];
      RowComesOrGoes(s, e, s', t);
      if t in s.rows && t in s'.rows {
        StepSpendsClaims(s, e, s', t);
      } else if t in s'.rows {
        PresentBetween(run, t, i, k - 1, k);
      }
    }
  }

  /** The budget of a row nobody has edited: pending rows have an attempt left, no row is past its
      maximum, and a row failed by its worker or by the reaper has used every attempt. */
  ghost predicate BudgetInv(r: Task) {
    && 1 <= r.maxAttempts
    && 0 <= r.attempts <= r.maxAttempts
    && (r.status.Pending? ==> r.attempts < r.maxAttempts)
    && (r.status.Failed? && r.claimedBy.Some? ==> r.attempts == r.maxAttempts)
  }

  /** An accepted edit of t, if this is one, leaves the maximum above the attempts already made. */
  predicate EditFits(s: Db, e: Event, t: TaskId) {
    e.Update? && e.task == t && t in s.rows ==> s.rows[t].attempts < e.edit.maxAttempts
  }

  lemma BudgetStep(s: Db, e: Event, s': Db, t: TaskId)
    requires Step(s, e, s') && t in s'.rows
    requires t in s.rows ==> ColumnsAgree(s.rows[t]) && BudgetInv(s.rows[t])
    ensures BudgetInv(s'.rows[t]) <==> EditFits(s, e, t)
  {
    RowComesOrGoes(s, e, s', t);
    if t in s.rows {
      RowAfter(s, e, s', t);
    }
  }

  lemma {:induction false} FittingEditsKeepBudget(run: Run, k: nat, t: TaskId)
    requires Valid(run) && k <= |run.events| && t in run.states[k].rows
    requires forall j: nat :: j < k ==> EditFits(run.states[j], run.events[j], t)
    ensures BudgetInv(run.states[k].rows[t])
  {
    assert k > 0;
    assert StepAt(run, k - 1);
    RowComesOrGoes(run.states[k - 1], run.events[k - 1], run.states[k], t);
    if t in run.states[k - 1].rows {
      FittingEditsKeepBudget(run, k - 1, t);
      ReachableInv(run, k - 1);
    }
    BudgetStep(run.states[k - 1], run.events[k - 1], run.states[k], t);
  }

  /** Over a whole run, a task meets its budget at every moment if and only if every accepted edit
      of it set a maximum above the attempts made by then; with no edits at all it always does. */
  lemma BudgetKeptIff(run: Run, k: nat, t: TaskId)
    requires Valid(run) && k <= |run.events|
    ensures (forall m: nat :: m <= k && t in run.states[m].rows ==> BudgetInv(run.states[m].rows[t])) <==>
            (forall j: nat :: j < k ==> EditFits(run.states[j], run.events[j], t))
  {
    if forall j: nat :: j < k ==> EditFits(run.states[j], run.events[j], t) {
      forall m: nat | m <= k && t in run.states[m].rows
        ensures BudgetInv(run.states[m].rows[t])
      {
        FittingEditsKeepBudget(run, m, t);
      }
    } else {
      var j: nat :| j < k && !EditFits(run.states[j], run.events[j], t);
      assert StepAt(run, j);
      assert t in run.states[j + 1].rows;
      if BudgetInv(run.states[j].rows[t]) {
        ReachableInv(run, j);
        BudgetStep(run.states[j], run.events[j], run.states[j + 1], t);
      }
    }
  }

  // ---- settling ----

  /** Strictly falls with every status change that is not an operator's requeue. */
  function Rank(r: Task): nat {
    match r.status
    case Pending => 3 * Max(1, r.maxAttempts - r.attempts) + 2
    case Claimed => 3 * Max(0, r.maxAttempts - r.attempts) + 4
    case InProgress => 3 * Max(0, r.maxAttempts - r.attempts) + 3
    case PROpened => 2
    case ReviewRequested => 1
    case Completed => 0
    case Failed => 0
  }

  lemma StepLowersRank(s: Db, e: Event, s': Db, t: TaskId)
    requires Step(s, e, s') && t in s.rows && t in s'.rows && !Redraws(e, t)
    ensures Rank(s'.rows[t]) + (if StatusMoves(s, s', t) then 1 else 0) <= Rank(s.rows[t])
  {
    RowAfter(s, e, s', t);
  }

  /** Every task settles: without edits and requeues, a task that starts pending with count c and
      maximum m changes status at most 3 * max(1, m - c) + 2 times, however long the run. */
  lemma {:induction false} TasksSettle(run: Run, t: TaskId, i: nat, k: nat)
    requires Valid(run) && i <= k <= |run.events|
    requires t in run.states[i].rows && Undisturbed(run, t, i, k)
    ensures StatusChanges(run, t, i, k) <= Rank(run.states[i].rows[t])
    ensures t in run.states[k].rows ==>
              StatusChanges(run, t, i, k) + Rank(run.states[k].rows[t]) <= Rank(run.states[i].rows[t])
    decreases k
  {
    if i < k {
      TasksSettle(run, t, i, k - 1);
      assert StepAt(run, k - 1);
      var s, e, s' := run.states[k - 1], run.events[k - 1], run.states[k];
      if t in s'.rows {
        PresentBetween(run, t, i, k - 1, k);
        StepLowersRank(s, e, s', t);
      }
    }
  }

  lemma PendingTasksSettle(run: Run, t: TaskId, i: nat, k: nat)
    requires Valid(run) && i <= k <= |run.events| && Undisturbed(run, t, i, k)
    requires t in run.states[i].rows && run.states[i].rows[t].status.Pending?
    ensures var r := run.states[i].rows[t];
            && StatusChanges(run, t, i, k) <= 3 * Max(1, r.maxAttempts - r.attempts) + 2
            && ClaimCount(run, t, i, k) <= Max(1, r.maxAttempts - r.attempts)
  {
    TasksSettle(run, t, i, k);
    ClaimsWithinBudget(run, t, i, k);
  }

  // ---- backoff ----

  /** The backoff paid between the first and the n-th of n claims: 30s, then 60s, then 90s, ... */
  function Waited(n: nat): Time {
    if n == 0 then 0 else Waited(n - 1) + (n - 1) * BACKOFF_STEP
  }

  lemma {:induction false} WaitedIsQuadratic(n: nat)
    ensures Waited(n) == 15_000_000 * n * (n - 1)
  {
    if n > 0 {
      WaitedIsQuadratic(n - 1);
    }
  }

  /** Where the row must be in time once n claims have been accepted, the first at `start`. */
  ghost predicate BackoffInv(r: Task, start: Time, n: nat) {
    && n <= r.attempts
    && (Active(r) ==> r.claimedAt.Some? && Waited(n) <= r.claimedAt.value - start)
    && (r.status.Pending? ==> r.scheduledFor.Some? && Waited(n + 1) <= r.scheduledFor.value - start)
  }

  lemma BackoffStep(s: Db, e: Event, s': Db, t: TaskId, start: Time, n: nat)
    requires Step(s, e, s') && t in s.rows && t in s'.rows && !Redraws(e, t)
    requires DbInv(s) && BackoffInv(s.rows[t], start, n)
    ensures BackoffInv(s'.rows[t], start, if Claims(e, t) then n + 1 else n)
    ensures Claims(e, t) ==> Waited(n + 1) <= s.now - start
  {
    RowAfter(s, e, s', t);
  }

  lemma FirstClaimStartsBackoff(run: Run, t: TaskId, i: nat)
    requires Valid(run) && i < |run.events| && Claims(run.events[i], t)
    ensures ClaimCount(run, t, i, i + 1) == 1
    ensures t in run.states[i].rows && t in run.states[i + 1].rows
    ensures BackoffInv(run.states[i + 1].rows[t], run.states[i].now, 1)
  {
    assert StepAt(run, i);
    ReachableInv(run, i);
    RowAfter(run.states[i], run.events[i], run.states[i + 1], t);
    assert ClaimCount(run, t, i, i) == 0;
    assert Waited(1) == 0;
  }

  lemma {:induction false} BackoffHolds(run: Run, t: TaskId, i: nat, k: nat)
    requires Valid(run) && i < k <= |run.events|
    requires Claims(run.events[i], t) && Undisturbed(run, t, i, k) && t in run.states[k].rows
    ensures 1 <= ClaimCount(run, t, i, k)
    ensures BackoffInv(run.states[k].rows[t], run.states[i].now, ClaimCount(run, t, i, k))
    decreases k
  {
    FirstClaimStartsBackoff(run, t, i);
    if i < k - 1 {
      PresentBetween(run, t, i, k - 1, k);
      BackoffHolds(run, t, i, k - 1);
      ReachableInv(run, k - 1);
      assert StepAt(run, k - 1);
      BackoffStep(run.states[k - 1], run.events[k - 1], run.states[k], t, run.states[i].now,
                  ClaimCount(run, t, i, k - 1));
    }
  }

  /** Quadratic backoff: if claims i and k of t are the first and the n-th of a stretch of a run
      with no edit and no requeue of t, at least 15 * n * (n - 1) seconds lie between them,
      whether the attempts in between were failed by their workers or by the reaper. */
  lemma QuadraticBackoff(run: Run, t: TaskId, i: nat, k: nat)
    requires Valid(run) && i < k < |run.events|
    requires Claims(run.events[i], t) && Claims(run.events[k], t) && Undisturbed(run, t, i, k)
    ensures var n := ClaimCount(run, t, i, k + 1);
            2 <= n && 15_000_000 * n * (n - 1) <= run.states[k].now - run.states[i].now
  {
    WaitedIsQuadratic(ClaimCount(run, t, i, k + 1));
    assert StepAt(run, k);
    BackoffHolds(run, t, i, k);
    ReachableInv(run, k);
    BackoffStep(run.states[k], run.events[k], run.states[k + 1], t, run.states[i].now, ClaimCount(run, t, i, k));
  }
}
