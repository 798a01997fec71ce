// ClaimTask as it runs under concurrency: the subselect locks a row with FOR UPDATE SKIP LOCKED,
// the update commits later, and in between other claims look only at rows nobody has locked.
// Seen from outside, each such claim is the atomic best-first claim at the moment of its lock.

module SkipLocked {
  import opened Tasks
  import opened Machine

  /** A claim that holds its row lock but has not committed; `at` is its transaction time. */
  datatype InFlight = InFlight(worker: WorkerId, at: Time)

  datatype LockDb = LockDb(db: Db, locks: map<TaskId, InFlight>)

  datatype Act =
    | Call(e: Event)                        // any statement but a claim; it waits for row locks
    | Lock(worker: WorkerId, task: TaskId)
    | Commit(task: TaskId)

  /** Rows a claim may take: eligible, and locked by nobody. */
  predicate Free(s: LockDb, t: TaskId) {
    t in s.db.rows && t !in s.locks && Eligible(s.db.rows[t], s.db.now)
  }

  ghost predicate BestUnlocked(s: LockDb, t: TaskId) {
    Free(s, t) && forall u | Free(s, u) :: !Before(s.db.rows[u], s.db.rows[t])
  }

  ghost predicate Enabled(s: LockDb, a: Act) {
    match a
    case Call(e) => !e.Claim? && Accepts(s.db, e) && (e.Tick? || e.Reap? || e.task !in s.locks)
    case Lock(_, t) => BestUnlocked(s, t)
    case Commit(t) => t in s.locks && t in s.db.rows
  }

  function Do(s: LockDb, a: Act): LockDb {
    match a
    case Call(e) => s.(db := Apply(s.db, e))
    case Lock(w, t) => s.(locks := s.locks[t := InFlight(w, s.db.now)])
    case Commit(t) =>
      if t in s.locks && t in s.db.rows then
        LockDb(s.db.(rows := s.db.rows[t := Taken(s.db.rows[t], s.locks[t].worker, s.locks[t].at)]), s.locks - {t})
      else s
  }

  /** Only pending rows are ever locked by a claim, by transactions begun at or before now. */
  ghost predicate LockInv(s: LockDb) {
    forall t :: t in s.locks ==> t in s.db.rows && s.db.rows[t].status.Pending? && s.locks[t].at <= s.db.now
  }

  /** The table as if every claim had taken effect when it took its lock. */
  function Seen(s: LockDb): Db {
    s.db.(rows := map t | t in s.db.rows ::
            if t in s.locks then Taken(s.db.rows[t], s.locks[t].worker, s.locks[t].at) else s.db.rows[t])
  }

  /** No claim in flight is older than the reaper's window. */
  ghost predicate Prompt(s: LockDb, a: Act) {
    a.Call? && a.e.Reap? ==> forall t :: t in s.locks ==> s.locks[t].at >= s.db.now - a.e.visibility
  }

  lemma ActKeepsLockInv(s: LockDb, a: Act)
    requires LockInv(s) && Enabled(s, a)
    ensures LockInv(Do(s, a))
  {
    if a.Call? {
      var s' := Do(s, a);
      forall t | t in s.locks
        ensures t in s'.db.rows && s'.db.rows[t].status.Pending?
      {
        RowComesOrGoes(s.db, a.e, s'.db, t);
        RowAfter(s.db, a.e, s'.db, t);
      }
    }
  }

  /** Taking the lock is the atomic claim. */
  lemma LockIsClaim(s: LockDb, w: WorkerId, t: TaskId)
    requires LockInv(s) && Enabled(s, Lock(w, t))
    ensures Step(Seen(s), Claim(w, t), Seen(Do(s, Lock(w, t))))
  {
    assert Seen(Do(s, Lock(w, t))).rows == Apply(Seen(s), Claim(w, t)).rows;
  }

  /** Committing it is invisible. */
  lemma CommitIsInvisible(s: LockDb, t: TaskId)
    requires Enabled(s, Commit(t))
    ensures Seen(Do(s, Commit(t))) == Seen(s)
  {
    assert Seen(Do(s, Commit(t))).rows == Seen(s).rows;
  }

  lemma CallIsAccepted(s: LockDb, e: Event)
    requires LockInv(s) && Enabled(s, Call(e)) && !e.Reap?
    ensures Accepts(Seen(s), e)
  {
  }

  /** A call leaves locked rows alone, so it does the same to what is seen of every row. */
  lemma CallOnSeenRow(s: LockDb, e: Event, t: TaskId)
    requires LockInv(s) && Enabled(s, Call(e)) && !e.Reap?
    requires t in s.db.rows && t in Do(s, Call(e)).db.rows
    ensures Seen(Do(s, Call(e))).rows[t] == Touch(s.db.now, e, t, Seen(s).rows[t])
  {
    RowAfter(s.db, e, Do(s, Call(e)).db, t);
  }

  lemma CallOnEachRow(s: LockDb, e: Event, t: TaskId)
    requires LockInv(s) && Enabled(s, Call(e)) && !e.Reap?
    ensures var rows, rows' := Seen(Do(s, Call(e))).rows, Apply(Seen(s), e).rows;
            (t in rows <==> t in rows') && (t in rows ==> rows[t] == rows'[t])
  {
    var s', seen' := Do(s, Call(e)), Apply(Seen(s), e);
    CallIsAccepted(s, e);
    RowComesOrGoes(s.db, e, s'.db, t);
    RowComesOrGoes(Seen(s), e, seen', t);
    if t in s.db.rows && t in s'.db.rows {
      CallOnSeenRow(s, e, t);
      RowAfter(Seen(s), e, seen', t);
    }
  }

  lemma SameMap(a: map<TaskId, Task>, b: map<TaskId, Task>)
    requires forall t :: t in a <==> t in b
    requires forall t :: t in a ==> a[t] == b[t]
    ensures a == b
  {
  }

  lemma CallIsItself(s: LockDb, e: Event)
    requires LockInv(s) && Enabled(s, Call(e)) && !e.Reap?
    ensures Step(Seen(s), e, Seen(Do(s, Call(e))))
  {
    var rows, rows' := Seen(Do(s, Call(e))).rows, Apply(Seen(s), e).rows;
    CallIsAccepted(s, e);
    forall t
      ensures t in rows <==> t in rows'
      ensures t in rows ==> rows[t] == rows'[t]
    {
      CallOnEachRow(s, e, t);
    }
    SameMap(rows, rows');
  }

  /** A reap looks the same from outside exactly if it meets no claim in flight older than its
      window: such a row is still pending under its lock, so the reap passes it over. */
  lemma ReapIsItselfIff(s: LockDb, v: Time)
    requires LockInv(s)
    ensures Step(Seen(s), Reap(v), Seen(Do(s, Call(Reap(v))))) <==> Prompt(s, Call(Reap(v)))
  {
    var s' := Do(s, Call(Reap(v)));
    forall t | t in s.db.rows
      ensures s'.db.rows[t] == Reaped(s.db.rows[t], s.db.now, v)
      ensures t in s.locks ==> s'.db.rows[t] == s.db.rows[t]
    {
      RowAfter(s.db, Reap(v), s'.db, t);
    }
    if Prompt(s, Call(Reap(v))) {
      assert Seen(s').rows == Apply(Seen(s), Reap(v)).rows;
    } else {
      var t :| t in s.locks && s.locks[t].at < s.db.now - v;
      assert Seen(s').rows[t] == Seen(s).rows[t];
      assert Apply(Seen(s), Reap(v)).rows[t] == Reaped(Seen(s).rows[t], s.db.now, v);
      assert Active(Seen(s).rows[t]);
    }
  }

  // ---- whole runs ----

  datatype LockRun = LockRun(states: seq<LockDb>, acts: seq<Act>)

  ghost predicate LockStepAt(run: LockRun, k: nat)
    requires k < |run.acts| && |run.states| == |run.acts| + 1
  {
    && Enabled(run.states[k], run.acts[k]) && run.states[k + 1] == Do(run.states[k], run.acts[k])
    && Prompt(run.states[k], run.acts[k])
  }

  ghost predicate ValidLocking(run: LockRun) {
    && |run.states| == |run.acts| + 1
    && run.states[0] == LockDb(Empty(run.states[0].db.now), map[])
    && forall k: nat :: k < |run.acts| ==> LockStepAt(run, k)
  }

  lemma {:induction false} LockReachableInv(run: LockRun, k: nat)
    requires ValidLocking(run) && k <= |run.acts|
    ensures LockInv(run.states[k])
  {
    if k > 0 {
      LockReachableInv(run, k - 1);
      assert LockStepAt(run, k - 1);
      ActKeepsLockInv(run.states[k - 1], run.acts[k - 1]);
    }
  }

  // ---- concurrent claims at a standstill ----

  predicate Locks(a: Act, t: TaskId) {
    a.Lock? && a.task == t
  }

  /** Nothing but claims takes place from step i to step k. */
  predicate OnlyClaims(acts: seq<Act>, i: nat, k: nat)
    requires i <= k <= |acts|
  {
    forall j :: i <= j < k ==> !acts[j].Call?
  }

  /** Between two states with only claims in between, a row stays free exactly until it is locked,
      and stays as it is for as long as it is free. */
  lemma {:induction false} FreeUntilLocked(run: LockRun, i: nat, k: nat, t: TaskId)
    requires ValidLocking(run) && i <= k <= |run.acts| && OnlyClaims(run.acts, i, k)
    ensures Free(run.states[k], t) <==>
            Free(run.states[i], t) && forall j :: i <= j < k ==> !Locks(run.acts[j], t)
    ensures Free(run.states[k], t) ==> run.states[k].db.rows[t] == run.states[i].db.rows[t]
    decreases k
  {
    if i < k {
      FreeUntilLocked(run, i, k - 1, t);
      assert LockStepAt(run, k - 1);
    }
  }

  /** Claims that overlap, each locking its row and committing at some later point, take distinct
      tasks, and take them best first by the table as it stood at the beginning. */
  lemma LocksAreBestFirst(run: LockRun, i: nat, j: nat, k: nat, t: TaskId, u: TaskId)
    requires ValidLocking(run) && i <= j < k < |run.acts| && OnlyClaims(run.acts, i, k)
    requires Locks(run.acts[j], t) && Locks(run.acts[k], u)
    ensures t != u && Free(run.states[i], t) && Free(run.states[i], u)
    ensures var r, r' := run.states[i].db.rows[t], run.states[i].db.rows[u];
            r.priority > r'.priority || (r.priority == r'.priority && r.createdAt <= r'.createdAt)
  {
    assert LockStepAt(run, j) && LockStepAt(run, k);
    FreeUntilLocked(run, i, j, t);
    FreeUntilLocked(run, i, k, u);
    FreeUntilLocked(run, i, j, u);
  }

  /** Once no free row is left, the rows locked in the meantime are exactly those that were free at
      the beginning: no eligible task is passed over for good. */
  lemma LocksAreAllFree(run: LockRun, i: nat, k: nat, t: TaskId)
    requires ValidLocking(run) && i <= k <= |run.acts| && OnlyClaims(run.acts, i, k)
    requires forall u :: !Free(run.states[k], u)
    ensures Free(run.states[i], t) <==> exists j :: i <= j < k && Locks(run.acts[j], t)
  {
    FreeUntilLocked(run, i, k, t);
    if j :| i <= j < k && Locks(run.acts[j], t) {
      FreeUntilLocked(run, i, j, t);
      assert LockStepAt(run, j);
    }
  }

  /** The events an outside observer sees: calls, and claims at the moment of their lock. */
  function SeenEvents(acts: seq<Act>): seq<Event> {
    if acts == [] then []
    else
      var last := acts[|acts| - 1];
      SeenEvents(acts[..|acts| - 1])
      + (match last
         case Call(e) => [e]
         case Lock(w, t) => [Claim(w, t)]
         case Commit(_) => [])
  }

  /** Every locking run is a run of atomic claims, in lock order, ending in the same table once the
      claims in flight are counted as done; so what is proved of runs holds of locking runs. */
  lemma {:induction false} LockingIsAtomic(run: LockRun, k: nat) returns (atomic: Run)
    requires ValidLocking(run) && k <= |run.acts|
    ensures Valid(atomic) && atomic.events == SeenEvents(run.acts[..k])
    ensures atomic.states[|atomic.events|] == Seen(run.states[k])
  {
    if k == 0 {
      assert Seen(run.states[0]).rows == map[];
      atomic := Run([Seen(run.states[0])], []);
    } else {
      var before := LockingIsAtomic(run, k - 1);
      var s, a := run.states[k - 1], run.acts[k - 1];
      assert LockStepAt(run, k - 1);
      LockReachableInv(run, k - 1);
      assert run.acts[..k][..k - 1] == run.acts[..k - 1];
      match a
      case Lock(w, t) =>
        LockIsClaim(s, w, t);
        atomic := Extend(before, Claim(w, t));
      case Commit(t) =>
        CommitIsInvisible(s, t);
        atomic := before;
      case Call(e) =>
        if e.Reap? {
          ReapIsItselfIff(s, e.visibility);
        } else {
          CallIsItself(s, e);
        }
        atomic := Extend(before, e);
    }
  }
}
