// What every reachable table looks like when each store call is one atomic step.

module Invariants {
  import opened Tasks
  import opened Machine

  /** Which nullable columns agree with which status. */
  ghost predicate ColumnsAgree(r: Task) {
    && (r.claimedBy.Some? <==> r.claimedAt.Some?)
    && (r.claimedBy.Some? <==> r.heartbeatAt.Some?)
    && (Active(r) ==> r.claimedBy.Some?)
    && (r.status.Pending? || Parked(r) ==> r.claimedBy.None?)
    && (r.completedAt.Some? <==> r.status.Completed?)
    && (r.status.Completed? && r.claimedBy.Some? ==> r.lastError.None?)
    && (r.status.Failed? && r.claimedBy.Some? ==> r.lastError.Some? && Exhausted(r))
    && 0 <= r.attempts
    && (r.claimedBy.Some? || Parked(r) ==> 1 <= r.attempts)
  }

  /** The timestamps of a row are ordered by the life of the row, and none lies in the future. */
  ghost predicate TimesAgree(r: Task, now: Time) {
    && r.createdAt <= r.updatedAt <= now
    && (r.claimedAt.Some? && r.heartbeatAt.Some? ==>
          r.createdAt <= r.claimedAt.value <= r.heartbeatAt.value <= r.updatedAt)
    && (r.completedAt.Some? ==> r.createdAt <= r.completedAt.value <= r.updatedAt)
    && (r.completedAt.Some? && r.heartbeatAt.Some? ==> r.heartbeatAt.value <= r.completedAt.value)
  }

  ghost predicate RowInv(r: Task, now: Time) {
    ColumnsAgree(r) && TimesAgree(r, now)
  }

  /** Log ids increase in append order, stay below the sequence, and point at live rows. */
  ghost predicate LogsInv(s: Db) {
    && (forall i, j :: 0 <= i < j < |s.logs| ==> s.logs[i].id < s.logs[j].id)
    && (forall i :: 0 <= i < |s.logs| ==>
          s.logs[i].id < s.nextLog && s.logs[i].task in s.rows && s.logs[i].createdAt <= s.now)
  }

  ghost predicate DbInv(s: Db) {
    && (forall t :: t in s.rows ==> RowInv(s.rows[t], s.now))
    && s.rows.Keys <= s.known
    && LogsInv(s)
  }

  lemma TouchKeepsColumns(s: Db, e: Event, t: TaskId)
    requires t in s.rows && Accepts(s, e) && ColumnsAgree(s.rows[t])
    ensures ColumnsAgree(Touch(s.now, e, t, s.rows[t]))
  {
  }

  lemma TouchKeepsTimes(s: Db, e: Event, t: TaskId)
    requires t in s.rows && Accepts(s, e) && RowInv(s.rows[t], s.now)
    ensures TimesAgree(Touch(s.now, e, t, s.rows[t]), s.now)
  {
  }

  lemma {:induction false} WithoutTaskKeeps(logs: seq<LogEntry>, t: TaskId)
    ensures forall x :: x in WithoutTask(logs, t) <==> x in logs && x.task != t
    ensures (forall i, j :: 0 <= i < j < |logs| ==> logs[i].id < logs[j].id) ==>
            (forall i, j :: 0 <= i < j < |WithoutTask(logs, t)| ==>
               WithoutTask(logs, t)[i].id < WithoutTask(logs, t)[j].id)
  {
    if logs != [] {
      var rest := WithoutTask(logs[1..], t);
      WithoutTaskKeeps(logs[1..], t);
      if (forall i, j :: 0 <= i < j < |logs| ==> logs[i].id < logs[j].id) {
        assert forall x :: x in rest ==> logs[0].id < x.id;
      }
    }
  }

  lemma StepKeepsLogs(s: Db, e: Event, s': Db)
    requires DbInv(s) && Step(s, e, s')
    ensures LogsInv(s')
  {
    if e.Delete? {
      WithoutTaskKeeps(s.logs, e.task);
      forall i | 0 <= i < |s'.logs|
        ensures s'.logs[i].id < s'.nextLog && s'.logs[i].task in s'.rows && s'.logs[i].createdAt <= s'.now
      {
        assert s'.logs[i] in s'.logs;
      }
    }
  }

  lemma StepKeepsDbInv(s: Db, e: Event, s': Db)
    requires DbInv(s) && Step(s, e, s')
    ensures DbInv(s')
  {
    StepKeepsLogs(s, e, s');
    forall t | t in s'.rows
      ensures RowInv(s'.rows[t], s'.now)
    {
      if t in s.rows {
        RowAfter(s, e, s', t);
        TouchKeepsColumns(s, e, t);
        TouchKeepsTimes(s, e, t);
      } else {
        RowComesOrGoes(s, e, s', t);
      }
    }
  }

  /** The table invariant holds at every point of every run. */
  lemma {:induction false} ReachableInv(run: Run, k: nat)
    requires Valid(run) && k <= |run.events|
    ensures DbInv(run.states[k])
  {
    if k > 0 {
      ReachableInv(run, k - 1);
      assert StepAt(run, k - 1);
      StepKeepsDbInv(run.states[k - 1], run.events[k - 1], run.states[k]);
    }
  }

  /** In any reachable table, whether a row has an owner is a function of its status, except for
      finished rows, where it tells who finished them: a worker (or the reaper), or an operator. */
  lemma OwnerByStatus(run: Run, k: nat, t: TaskId)
    requires Valid(run) && k <= |run.events| && t in run.states[k].rows
    ensures var r := run.states[k].rows[t];
            && (Active(r) ==> r.claimedBy.Some? && r.claimedAt.Some? && r.heartbeatAt.Some?)
            && (r.status.Pending? || Parked(r) ==> r.claimedBy.None? && r.claimedAt.None? && r.heartbeatAt.None?)
            && (r.completedAt.Some? <==> r.status.Completed?)
  {
    ReachableInv(run, k);
  }
}
