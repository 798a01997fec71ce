// AppendTaskLog as it really runs: a check, an insert and an unguarded update in one transaction
// that takes no lock on the task row until the update, with any other calls in between. Every
// now() in the transaction is the time it began.

module SplitLog {
  import opened Tasks
  import opened Machine
  import opened Invariants
  import opened Leases

  datatype LogTx = LogTx(worker: WorkerId, task: TaskId, message: string, began: Time, entry: Option<LogEntry>)

  datatype SplitDb = SplitDb(db: Db, open: map<nat, LogTx>)

  datatype Act =
    | Call(e: Event)                  // any store call but AppendTaskLog, or the clock
    | LogCheck(x: nat, worker: WorkerId, task: TaskId, message: string, began: Time)  // BEGIN was at `began`
    | LogInsert(x: nat)
    | LogCommit(x: nat)               // UPDATE tasks, then COMMIT
    | LogAbort(x: nat)

  /** The foreign key of an inserted, uncommitted log line keeps its task from being deleted. */
  predicate Pinned(s: SplitDb, t: TaskId) {
    exists x :: x in s.open && s.open[x].task == t && s.open[x].entry.Some?
  }

  ghost predicate Enabled(s: SplitDb, a: Act) {
    match a
    case Call(e) => Accepts(s.db, e) && !e.AppendLog? && !(e.Delete? && Pinned(s, e.task))
    case LogCheck(x, w, t, _, began) => x !in s.open && Owns(s.db, w, t) && began <= s.db.now
    case LogInsert(x) => x in s.open && s.open[x].entry.None? && s.open[x].task in s.db.rows
    case LogCommit(x) => x in s.open && s.open[x].entry.Some?
    case LogAbort(x) => x in s.open
  }

  /** UPDATE tasks SET last_heartbeat_at = now(), ... WHERE id = $1: no owner, no status. */
  function Stamp(db: Db, tx: LogTx): map<TaskId, Task> {
    if tx.task in db.rows then db.rows[tx.task := Refreshed(db.rows[tx.task], tx.began)] else db.rows
  }

  function Do(s: SplitDb, a: Act): SplitDb {
    match a
    case Call(e) => s.(db := Apply(s.db, e))
    case LogCheck(x, w, t, m, began) => s.(open := s.open[x := LogTx(w, t, m, began, None)])
    case LogInsert(x) =>
      if x in s.open then
        var tx := s.open[x];
        SplitDb(s.db.(nextLog := s.db.nextLog + 1),
                s.open[x := tx.(entry := Some(LogEntry(s.db.nextLog, tx.task, tx.message, tx.began)))])
      else s
    case LogCommit(x) =>
      if x in s.open && s.open[x].entry.Some? then
        var tx := s.open[x];
        SplitDb(s.db.(rows := Stamp(s.db, tx), logs := s.db.logs + [tx.entry.value]), s.open - {x})
      else s
    case LogAbort(x) => s.(open := s.open - {x})
  }

  ghost predicate SplitStep(s: SplitDb, a: Act, s': SplitDb) {
    Enabled(s, a) && s' == Do(s, a)
  }

  datatype SplitRun = SplitRun(states: seq<SplitDb>, acts: seq<Act>)

  ghost predicate SplitStepAt(run: SplitRun, k: nat)
    requires k < |run.acts| && |run.states| == |run.acts| + 1
  {
    SplitStep(run.states[k], run.acts[k], run.states[k + 1])
  }

  ghost predicate ValidSplit(run: SplitRun) {
    && |run.states| == |run.acts| + 1
    && run.states[0] == SplitDb(Empty(run.states[0].db.now), map[])
    && forall k: nat :: k < |run.acts| ==> SplitStepAt(run, k)
  }

  // ---- what survives any interleaving ----

  /** The part of the row invariant that looks forward: what later guards and later calls rely on. */
  ghost predicate ForwardInv(r: Task, now: Time) {
    && (r.claimedBy.Some? <==> r.claimedAt.Some?)
    && (Active(r) ==> r.claimedBy.Some?)
    && (r.claimedBy.Some? ==> r.heartbeatAt.Some?)
    && (r.status.Pending? || Parked(r) ==> r.claimedBy.None?)
    && (r.completedAt.Some? <==> r.status.Completed?)
    && (r.status.Failed? && r.claimedBy.Some? ==> Exhausted(r))
    && 0 <= r.attempts
    && (r.claimedBy.Some? || Parked(r) ==> 1 <= r.attempts)
    && (r.heartbeatAt.Some? ==> r.heartbeatAt.value <= now)
  }

  ghost predicate SplitInv(s: SplitDb) {
    && (forall t :: t in s.db.rows ==> ForwardInv(s.db.rows[t], s.db.now))
    && (forall x :: x in s.open ==> s.open[x].began <= s.db.now)
    && (forall x :: x in s.open && s.open[x].entry.Some? ==>
          s.open[x].task in s.db.rows && s.open[x].entry.value.task == s.open[x].task)
  }

  lemma TouchKeepsForward(s: Db, e: Event, t: TaskId)
    requires t in s.rows && Accepts(s, e) && ForwardInv(s.rows[t], s.now)
    ensures ForwardInv(Touch(s.now, e, t, s.rows[t]), s.now)
  {
  }

  lemma CallKeepsForward(s: Db, e: Event, s': Db, t: TaskId)
    requires Step(s, e, s') && t in s'.rows && (t in s.rows ==> ForwardInv(s.rows[t], s.now))
    ensures ForwardInv(s'.rows[t], s'.now)
  {
    RowComesOrGoes(s, e, s', t);
    if t in s.rows {
      RowAfter(s, e, s', t);
      TouchKeepsForward(s, e, t);
    }
  }

  lemma ActKeepsSplitInv(s: SplitDb, a: Act, s': SplitDb)
    requires SplitInv(s) && SplitStep(s, a, s')
    ensures SplitInv(s')
  {
    match a
    case Call(e) =>
      forall t | t in s'.db.rows
        ensures ForwardInv(s'.db.rows[t], s'.db.now)
      {
        CallKeepsForward(s.db, e, s'.db, t);
      }
      forall x | x in s.open && s.open[x].entry.Some?
        ensures s.open[x].task in s'.db.rows
      {
        RowComesOrGoes(s.db, e, s'.db, s.open[x].task);
      }
    case LogCheck(_, _, _, _, _) =>
    case LogInsert(_) =>
    case LogCommit(_) =>
    case LogAbort(_) =>
  }

  /** With the three statements interleaved with anything, the forward invariants hold throughout,
      and every inserted line still has its task. */
  lemma {:induction false} SplitReachableInv(run: SplitRun, k: nat)
    requires ValidSplit(run) && k <= |run.acts|
    ensures SplitInv(run.states[k])
  {
    if k > 0 {
      SplitReachableInv(run, k - 1);
      assert SplitStepAt(run, k - 1);
      ActKeepsSplitInv(run.states[k - 1], run.acts[k - 1], run.states[k]);
    }
  }

  ghost predicate SplitReleases(s: SplitDb, a: Act, t: TaskId) {
    a.Call? && Releases(s.db, a.e, t)
  }

  /** Log transactions, whoever's, never end or move a hold: a held task stays with the same
      worker under the same claim until that worker gives it up or the reaper takes it. */
  lemma {:induction false} SplitLeaseSurvives(run: SplitRun, i: nat, k: nat, t: TaskId)
    requires ValidSplit(run) && i <= k <= |run.acts| && Held(run.states[i].db, t)
    requires forall j :: i <= j < k ==> !SplitReleases(run.states[j], run.acts[j], t)
    ensures Held(run.states[k].db, t)
    ensures var r, r' := run.states[i].db.rows[t], run.states[k].db.rows[t];
            r'.claimedBy == r.claimedBy && r'.claimedAt == r.claimedAt && r'.attempts == r.attempts
    decreases k
  {
    if i < k {
      SplitLeaseSurvives(run, i, k - 1, t);
      assert SplitStepAt(run, k - 1);
      var s, a, s' := run.states[k - 1], run.acts[k - 1], run.states[k];
      if a.Call? {
        RowComesOrGoes(s.db, a.e, s'.db, t);
        RowAfter(s.db, a.e, s'.db, t);
      }
    }
  }

  lemma {:induction false} NotHeldUntilClaimed(run: SplitRun, i: nat, k: nat, t: TaskId)
    requires ValidSplit(run) && i <= k <= |run.acts| && !Held(run.states[i].db, t)
    requires forall j :: i <= j < k ==> !(run.acts[j].Call? && Claims(run.acts[j].e, t))
    ensures !Held(run.states[k].db, t)
    decreases k
  {
    if i < k {
      NotHeldUntilClaimed(run, i, k - 1, t);
      assert SplitStepAt(run, k - 1);
      var s, a, s' := run.states[k - 1], run.acts[k - 1], run.states[k];
      if a.Call? {
        RowComesOrGoes(s.db, a.e, s'.db, t);
        if t in s.db.rows && t in s'.db.rows {
          RowAfter(s.db, a.e, s'.db, t);
        }
      }
    }
  }

  lemma ReleaseEndsHold(s: SplitDb, a: Act, s': SplitDb, t: TaskId)
    requires SplitStep(s, a, s') && SplitReleases(s, a, t)
    ensures !Held(s'.db, t)
  {
    if t in s.db.rows && t in s'.db.rows {
      RowAfter(s.db, a.e, s'.db, t);
    }
  }

  /** A log line whose transaction checked at i and commits at k lands under the very claim that was
      checked (no release in between) if and only if its writer owns the task at the commit and
      nobody, not even the writer, has claimed it since the check. Either way the line is appended
      and the row of whoever has the task by then is refreshed. */
  lemma LineLandsInOwnLeaseIff(run: SplitRun, i: nat, k: nat, x: nat)
    requires ValidSplit(run) && i < k < |run.acts|
    requires run.acts[i].LogCheck? && run.acts[i].x == x && run.acts[k] == LogCommit(x)
    requires forall j :: i < j < k ==> !(run.acts[j].LogCheck? && run.acts[j].x == x)
    ensures var w, t := run.acts[i].worker, run.acts[i].task;
            (forall j :: i < j < k ==> !SplitReleases(run.states[j], run.acts[j], t)) <==>
            && Owns(run.states[k].db, w, t)
            && (forall j :: i < j < k ==> !(run.acts[j].Call? && Claims(run.acts[j].e, t)))
    ensures var t, before, after := run.acts[i].task, run.states[k].db, run.states[k + 1].db;
            && t in before.rows && t in after.rows
            && after.rows[t] == Refreshed(before.rows[t], run.acts[i].began)
            && |after.logs| == |before.logs| + 1 && after.logs[..|before.logs|] == before.logs
            && after.logs[|before.logs|].task == t && after.logs[|before.logs|].message == run.acts[i].message
            && after.logs[|before.logs|].createdAt == run.acts[i].began
  {
    var t := run.acts[i].task;
    assert SplitStepAt(run, i);
    TxKeepsItsCheck(run, i, k, x);
    assert SplitStepAt(run, k);
    SplitReachableInv(run, k);
    if forall j :: i < j < k ==> !SplitReleases(run.states[j], run.acts[j], t) {
      SplitLeaseSurvives(run, i + 1, k, t);
      forall j | i < j < k
        ensures !(run.acts[j].Call? && Claims(run.acts[j].e, t))
      {
        SplitLeaseSurvives(run, i + 1, j, t);
        assert SplitStepAt(run, j);
      }
    } else {
      var j :| i < j < k && SplitReleases(run.states[j], run.acts[j], t);
      assert SplitStepAt(run, j);
      ReleaseEndsHold(run.states[j], run.acts[j], run.states[j + 1], t);
      if forall m :: i < m < k ==> !(run.acts[m].Call? && Claims(run.acts[m].e, t)) {
        NotHeldUntilClaimed(run, j + 1, k, t);
      }
    }
  }

  lemma {:induction false} TxKeepsItsCheck(run: SplitRun, i: nat, k: nat, x: nat)
    requires ValidSplit(run) && i < k <= |run.acts|
    requires run.acts[i].LogCheck? && run.acts[i].x == x
    requires forall j :: i < j < k ==> !(run.acts[j].LogCheck? && run.acts[j].x == x)
    ensures x in run.states[k].open ==>
              && run.states[k].open[x].worker == run.acts[i].worker
              && run.states[k].open[x].task == run.acts[i].task
              && run.states[k].open[x].began == run.acts[i].began
              && run.states[k].open[x].message == run.acts[i].message
              && (run.states[k].open[x].entry.Some? ==>
                    && run.states[k].open[x].entry.value.message == run.acts[i].message
                    && run.states[k].open[x].entry.value.createdAt == run.acts[i].began)
    decreases k
  {
    assert SplitStepAt(run, k - 1);
    if i < k - 1 {
      TxKeepsItsCheck(run, i, k - 1, x);
    }
  }

  // ---- what the unguarded update can do ----

  /** All it writes: a stamp, and claimed becomes in_progress. Every other row is left alone. */
  lemma CommitOnlyStamps(s: SplitDb, x: nat, t: TaskId)
    requires Enabled(s, LogCommit(x)) && t in s.db.rows
    ensures var r, r' := s.db.rows[t], Do(s, LogCommit(x)).db.rows[t];
            if t != s.open[x].task then r' == r
            else r' == r.(heartbeatAt := Some(s.open[x].began), updatedAt := s.open[x].began, status := r'.status)
                 && (r'.status != r.status <==> r.status.Claimed?)
                 && (r.status.Claimed? ==> r'.status.InProgress?)
  {
  }

  /** The column invariant survives a commit exactly on rows that have an owner at that moment. */
  lemma CommitKeepsColumnsIff(s: SplitDb, x: nat)
    requires Enabled(s, LogCommit(x)) && s.open[x].task in s.db.rows && ColumnsAgree(s.db.rows[s.open[x].task])
    ensures var t := s.open[x].task;
            ColumnsAgree(Do(s, LogCommit(x)).db.rows[t]) <==> s.db.rows[t].claimedBy.Some?
  {
  }

  /** On a held row the ordering of the timestamps survives exactly if the transaction began no
      earlier than the present claim. */
  lemma CommitKeepsTimesIff(s: SplitDb, x: nat)
    requires Enabled(s, LogCommit(x)) && SplitInv(s) && Held(s.db, s.open[x].task)
    requires RowInv(s.db.rows[s.open[x].task], s.db.now)
    ensures var t := s.open[x].task;
            RowInv(Do(s, LogCommit(x)).db.rows[t], s.db.now) <==>
            s.db.rows[t].claimedAt.value <= s.open[x].began
  {
  }

  // ---- what the reaper takes ----

  /** What a step writes into the heartbeat of t, if it writes it: a refreshing call the time it is
      made, a commit the time its transaction began. */
  function StampOf(s: SplitDb, a: Act, t: TaskId): Option<Time> {
    match a
    case Call(e) => if Refreshes(e, t) then Some(s.db.now) else None
    case LogCommit(x) => if x in s.open && s.open[x].task == t then Some(s.open[x].began) else None
    case _ => None
  }

  ghost function LastStamp(run: SplitRun, k: nat, t: TaskId): (m: Option<nat>)
    requires k <= |run.acts| && |run.states| == |run.acts| + 1
    ensures m.Some? ==> m.value < k && StampOf(run.states[m.value], run.acts[m.value], t).Some?
    ensures m.Some? ==> forall j :: m.value < j < k ==> StampOf(run.states[j], run.acts[j], t).None?
    ensures m.None? ==> forall j :: 0 <= j < k ==> StampOf(run.states[j], run.acts[j], t).None?
  {
    if k == 0 then None
    else if StampOf(run.states[k - 1], run.acts[k - 1], t).Some? then Some(k - 1)
    else LastStamp(run, k - 1, t)
  }

  lemma ActOnHeartbeat(s: SplitDb, a: Act, s': SplitDb, t: TaskId)
    requires SplitStep(s, a, s') && Held(s'.db, t)
    ensures StampOf(s, a, t).Some? ==> s'.db.rows[t].heartbeatAt == StampOf(s, a, t)
    ensures StampOf(s, a, t).None? ==> Held(s.db, t) && s'.db.rows[t].heartbeatAt == s.db.rows[t].heartbeatAt
  {
    if a.Call? {
      RowComesOrGoes(s.db, a.e, s'.db, t);
      if t in s.db.rows {
        RowAfter(s.db, a.e, s'.db, t);
      }
    }
  }

  /** The heartbeat column of a held task is what the last stamp of it wrote. */
  lemma {:induction false} HeartbeatIsLastStamp(run: SplitRun, k: nat, t: TaskId)
    requires ValidSplit(run) && k <= |run.acts| && Held(run.states[k].db, t)
    ensures LastStamp(run, k, t).Some?
    ensures var m := LastStamp(run, k, t).value;
            run.states[k].db.rows[t].heartbeatAt == StampOf(run.states[m], run.acts[m], t)
  {
    assert k > 0;
    assert SplitStepAt(run, k - 1);
    ActOnHeartbeat(run.states[k - 1], run.acts[k - 1], run.states[k], t);
    if StampOf(run.states[k - 1], run.acts[k - 1], t).None? {
      HeartbeatIsLastStamp(run, k - 1, t);
    }
  }

  /** Over every split run, a reap takes exactly the held tasks whose last stamp is from before the
      window; when earlier calls refreshed them plays no part. */
  lemma SplitReapedIff(run: SplitRun, k: nat, t: TaskId)
    requires ValidSplit(run) && k < |run.acts| && run.acts[k].Call? && run.acts[k].e.Reap?
    ensures SplitReleases(run.states[k], run.acts[k], t) <==>
            && Held(run.states[k].db, t)
            && exists m :: 0 <= m < k && StampOf(run.states[m], run.acts[m], t).Some?
                           && StampOf(run.states[m], run.acts[m], t).value
                              < run.states[k].db.now - run.acts[k].e.visibility
                           && forall j :: m < j < k ==> StampOf(run.states[j], run.acts[j], t).None?
  {
    if Held(run.states[k].db, t) {
      HeartbeatIsLastStamp(run, k, t);
    }
  }

  lemma {:induction false} SplitClockForward(run: SplitRun, i: nat, j: nat)
    requires ValidSplit(run) && i <= j <= |run.acts|
    ensures run.states[i].db.now <= run.states[j].db.now
    decreases j
  {
    if i < j {
      SplitClockForward(run, i, j - 1);
      assert SplitStepAt(run, j - 1);
    }
  }

  /** A holder that refreshed at m, inside the window of the reap at k, loses its lease to that reap
      if and only if the task was last stamped, after m, by the commit of a log transaction that
      began before the window. */
  lemma RefreshUndoneIff(run: SplitRun, m: nat, k: nat, t: TaskId)
    requires ValidSplit(run) && m < k < |run.acts| && run.acts[k].Call? && run.acts[k].e.Reap?
    requires run.acts[m].Call? && Refreshes(run.acts[m].e, t)
    requires run.states[m].db.now >= run.states[k].db.now - run.acts[k].e.visibility
    ensures SplitReleases(run.states[k], run.acts[k], t) <==>
            && Held(run.states[k].db, t)
            && exists c :: m < c < k && run.acts[c].LogCommit? && StampOf(run.states[c], run.acts[c], t).Some?
                           && StampOf(run.states[c], run.acts[c], t).value
                              < run.states[k].db.now - run.acts[k].e.visibility
                           && forall j :: c < j < k ==> StampOf(run.states[j], run.acts[j], t).None?
  {
    SplitReapedIff(run, k, t);
    if SplitReleases(run.states[k], run.acts[k], t) {
      var cutoff := run.states[k].db.now - run.acts[k].e.visibility;
      var c :| 0 <= c < k && StampOf(run.states[c], run.acts[c], t).Some?
               && StampOf(run.states[c], run.acts[c], t).value < cutoff
               && forall j :: c < j < k ==> StampOf(run.states[j], run.acts[j], t).None?;
      assert StampOf(run.states[m], run.acts[m], t).Some?;
      SplitClockForward(run, m, c);
    }
  }

  // ---- two runs that show it ----

  ghost function Then(run: SplitRun, a: Act): (r: SplitRun)
    requires ValidSplit(run) && Enabled(run.states[|run.acts|], a)
    ensures ValidSplit(r) && |r.acts| == |run.acts| + 1 && r.acts == run.acts + [a]
    ensures r.states == run.states + [Do(run.states[|run.acts|], a)]
  {
    var r := SplitRun(run.states + [Do(run.states[|run.acts|], a)], run.acts + [a]);
    assert forall k: nat :: k < |r.acts| ==> SplitStepAt(r, k) by {
      forall k: nat | k < |r.acts|
        ensures SplitStepAt(r, k)
      {
        if k < |run.acts| {
          assert SplitStepAt(run, k);
        }
      }
    }
    r
  }

  /** One task, claimed by "w" at time 0, with a log transaction of "w" checked and open. */
  lemma ClaimedAndChecked() returns (run: SplitRun)
    ensures ValidSplit(run) && |run.acts| == 3
    ensures run.acts[2] == LogCheck(0, "w", 7, "line", 0)
    ensures var s := run.states[3];
            s.db.rows.Keys == {7} && s.db.now == 0 && s.db.logs == []
            && s.open == map[0 := LogTx("w", 7, "line", 0, None)]
            && OwnedBy(s.db.rows[7], "w") && s.db.rows[7].heartbeatAt == Some(0)
            && s.db.rows[7].attempts == 1 && s.db.rows[7].maxAttempts == 3 && s.db.rows[7].status.Claimed?
  {
    run := SplitRun([SplitDb(Empty(0), map[])], []);
    run := Then(run, Call(Create(7, NewTask("n", "p", true, 0, 3, None, None, None))));
    run := Then(run, Call(Claim("w", 7)));
    run := Then(run, LogCheck(0, "w", 7, "line", 0));
  }

  /** A heartbeat is undone: the holder refreshes at 100s, its own log transaction begun at 0s
      commits afterwards, and a reap at 101s with a 30s window takes the task. */
  lemma LateCommitLosesLease() returns (run: SplitRun)
    ensures ValidSplit(run) && |run.acts| == 8
    ensures run.acts[4] == Call(Heartbeat("w", 7)) && run.states[4].db.now == 100 * SECOND
    ensures run.acts[6] == LogCommit(0)
    ensures Owns(run.states[6].db, "w", 7) && run.states[6].db.rows[7].heartbeatAt == Some(100 * SECOND)
    ensures Owns(run.states[7].db, "w", 7) && run.states[7].db.rows[7].heartbeatAt == Some(0)
    ensures run.states[8].db.now == 101 * SECOND
    ensures ReapsRow(run.states[8].db, Reap(30 * SECOND), 7)
  {
    run := ClaimedAndChecked();
    run := Then(run, Call(Tick(100 * SECOND)));
    run := Then(run, Call(Heartbeat("w", 7)));
    run := Then(run, LogInsert(0));
    run := Then(run, LogCommit(0));
    run := Then(run, Call(Tick(101 * SECOND)));
  }

  /** The same, and the reaper has then taken the task and "v" has claimed it. */
  lemma ClaimedByAnother() returns (run: SplitRun)
    ensures ValidSplit(run) && |run.acts| == 7 && run.acts[2] == LogCheck(0, "w", 7, "line", 0)
    ensures var s := run.states[7];
            s.db.logs == [] && s.open == map[0 := LogTx("w", 7, "line", 0, None)]
            && 7 in s.db.rows && OwnedBy(s.db.rows[7], "v") && s.db.rows[7].status.Claimed?
  {
    run := ClaimedAndChecked();
    run := Then(run, Call(Tick(100 * SECOND)));
    run := Then(run, Call(Reap(30 * SECOND)));
    run := Then(run, Call(Tick(200 * SECOND)));
    run := Then(run, Call(Claim("v", 7)));
  }

  /** A stolen claim goes on writing: the reaper hands the task to "v" between the check and the
      commit of "w", whose line is then appended and whose update moves the row of "v" on. */
  lemma StolenClaimStillWrites() returns (run: SplitRun)
    ensures ValidSplit(run) && |run.acts| == 9
    ensures run.acts[2] == LogCheck(0, "w", 7, "line", 0) && run.acts[8] == LogCommit(0)
    ensures Owns(run.states[8].db, "v", 7) && run.states[8].db.rows[7].status.Claimed?
    ensures Owns(run.states[9].db, "v", 7) && run.states[9].db.rows[7].status.InProgress?
    ensures |run.states[9].db.logs| == 1 && run.states[9].db.logs[0].message == "line"
  {
    run := ClaimedByAnother();
    run := Then(run, LogInsert(0));
    run := Then(run, LogCommit(0));
  }
}
