// The metrics the handlers and the reaper keep, against the transitions that really happened.

module Counters {
  import opened Tasks
  import opened Machine
  import opened Invariants
  import opened Reaping
  import Store

  // ---- what happened ----

  /** Rows this step moved from active work into the status. */
  function FromActive(s: Db, s': Db, status: Status): set<TaskId> {
    set t | t in s.rows && t in s'.rows && Active(s.rows[t]) && s'.rows[t].status == status
  }

  /** Rows this step moved out of parking into the status. */
  function FromParking(s: Db, s': Db, status: Status): set<TaskId> {
    set t | t in s.rows && t in s'.rows && Parked(s.rows[t]) && s'.rows[t].status == status
  }

  /** Rows this step moved from the queue to a worker. */
  function FromQueue(s: Db, s': Db): set<TaskId> {
    set t | t in s.rows && t in s'.rows && s.rows[t].status == Pending && s'.rows[t].status == Claimed
  }

  /** Rows this step took out of active work. */
  function LeftActive(s: Db, s': Db): set<TaskId> {
    set t | t in s.rows && t in s'.rows && Active(s.rows[t]) && !Active(s'.rows[t])
  }

  ghost function ActiveTo(run: Run, k: nat, status: Status): nat
    requires k <= |run.events| && |run.states| == |run.events| + 1
  {
    if k == 0 then 0
    else ActiveTo(run, k - 1, status) + |FromActive(run.states[k - 1], run.states[k], status)|
  }

  ghost function ParkedTo(run: Run, k: nat, status: Status): nat
    requires k <= |run.events| && |run.states| == |run.events| + 1
  {
    if k == 0 then 0
    else ParkedTo(run, k - 1, status) + |FromParking(run.states[k - 1], run.states[k], status)|
  }

  // ---- what is counted ----

  datatype Metrics = Metrics(claimed: nat, completed: nat, failedReported: nat, failedReaped: nat, reaped: nat)

  const ZERO := Metrics(0, 0, 0, 0, 0)

  /** What the service adds to its counters when the store accepts e in state s. */
  function Counted(m: Metrics, s: Db, e: Event): Metrics {
    match e
    case Claim(_, _) => m.(claimed := m.claimed + 1)
    case ReportSuccess(_, _) => m.(completed := m.completed + 1)
    case ReportFailure(_, t, _) =>
      if t in s.rows && Exhausted(s.rows[t]) then m.(failedReported := m.failedReported + 1) else m
    case Reap(v) => m.(reaped := m.reaped + |StaleIds(s, v)|, failedReaped := m.failedReaped + |ToFail(s, v)|)
    case _ => m
  }

  ghost function MetricsAt(run: Run, k: nat): Metrics
    requires k <= |run.events| && |run.states| == |run.events| + 1
  {
    if k == 0 then ZERO else Counted(MetricsAt(run, k - 1), run.states[k - 1], run.events[k - 1])
  }

  lemma NothingMoves(s: Db, status: Status)
    requires status.Completed? || status.Failed?
    ensures FromActive(s, s, status) == {} && FromParking(s, s, status) == {}
  {
  }

  lemma OthersStay(s: Db, e: Event, s': Db, t: TaskId)
    requires Step(s, e, s') && !e.Reap? && !e.Tick? && t != e.task
    requires t in s.rows && t in s'.rows
    ensures s'.rows[t] == s.rows[t]
  {
    RowAfter(s, e, s', t);
  }

  lemma SingleRowMoves(s: Db, e: Event, s': Db, status: Status)
    requires status.Completed? || status.Failed?
    requires Step(s, e, s') && !e.Reap? && !e.Tick?
    ensures var there := e.task in s.rows && e.task in s'.rows && s'.rows[e.task].status == status;
            && FromActive(s, s', status) == (if there && Active(s.rows[e.task]) then {e.task} else {})
            && FromParking(s, s', status) == (if there && Parked(s.rows[e.task]) then {e.task} else {})
  {
    forall t | t in s.rows && t in s'.rows && t != e.task
      ensures t !in FromActive(s, s', status) && t !in FromParking(s, s', status)
    {
      OthersStay(s, e, s', t);
    }
  }

  lemma StepIsCounted(s: Db, e: Event, s': Db, m: Metrics)
    requires Step(s, e, s')
    ensures var m' := Counted(m, s, e);
            && |FromActive(s, s', Completed)| == m'.completed - m.completed
            && |FromActive(s, s', Failed)| == m'.failedReported + m'.failedReaped - m.failedReported - m.failedReaped
            && |FromParking(s, s', Completed)| == (if e.Finalize? && e.success then 1 else 0)
            && |FromParking(s, s', Failed)| == (if e.Finalize? && !e.success then 1 else 0)
  {
    if e.Tick? {
      NothingMoves(s, Completed);
      NothingMoves(s, Failed);
      assert s'.rows == s.rows;
      assert FromActive(s, s', Completed) == FromParking(s, s', Completed) == {};
      assert FromActive(s, s', Failed) == FromParking(s, s', Failed) == {};
    } else if e.Reap? {
      ReapIsCounted(s, e.visibility);
    } else {
      SingleRowIsCounted(s, e, s', m);
    }
  }

  lemma SingleRowIsCounted(s: Db, e: Event, s': Db, m: Metrics)
    requires Step(s, e, s') && !e.Reap? && !e.Tick?
    ensures var m' := Counted(m, s, e);
            && |FromActive(s, s', Completed)| == m'.completed - m.completed
            && |FromActive(s, s', Failed)| == m'.failedReported + m'.failedReaped - m.failedReported - m.failedReaped
            && |FromParking(s, s', Completed)| == (if e.Finalize? && e.success then 1 else 0)
            && |FromParking(s, s', Failed)| == (if e.Finalize? && !e.success then 1 else 0)
  {
    SingleRowMoves(s, e, s', Completed);
    SingleRowMoves(s, e, s', Failed);
    if e.task in s.rows && e.task in s'.rows {
      RowAfter(s, e, s', e.task);
    }
  }

  lemma ReapIsCounted(s: Db, v: Time)
    ensures var s' := Apply(s, Reap(v));
            && FromActive(s, s', Completed) == {} && FromActive(s, s', Failed) == ToFail(s, v)
            && FromParking(s, s', Completed) == {} && FromParking(s, s', Failed) == {}
  {
    var s' := Apply(s, Reap(v));
    forall t | t in s.rows
      ensures s'.rows[t].status == if !Stale(s.rows[t], s.now, v) then s.rows[t].status
                                   else if Exhausted(s.rows[t]) then Failed else Pending
    {
      RowAfter(s, Reap(v), s', t);
    }
  }

  lemma RunStepIsCounted(run: Run, k: nat, m: Metrics)
    requires Valid(run) && k < |run.events|
    ensures var s, e, s' := run.states[k], run.events[k], run.states[k + 1];
            var m' := Counted(m, s, e);
            && |FromActive(s, s', Completed)| == m'.completed - m.completed
            && |FromActive(s, s', Failed)| == m'.failedReported + m'.failedReaped - m.failedReported - m.failedReaped
            && |FromParking(s, s', Completed)| == (if e.Finalize? && e.success then 1 else 0)
            && |FromParking(s, s', Failed)| == (if e.Finalize? && !e.success then 1 else 0)
  {
    assert StepAt(run, k);
    StepIsCounted(run.states[k], run.events[k], run.states[k + 1], m);
  }

  ghost function Finalizations(run: Run, k: nat, success: bool): nat
    requires k <= |run.events|
  {
    if k == 0 then 0
    else Finalizations(run, k - 1, success)
         + (if run.events[k - 1].Finalize? && run.events[k - 1].success == success then 1 else 0)
  }

  lemma {:induction false} CompletedAreTransitions(run: Run, k: nat)
    requires Valid(run) && k <= |run.events|
    ensures MetricsAt(run, k).completed == ActiveTo(run, k, Completed)
  {
    if k > 0 {
      CompletedAreTransitions(run, k - 1);
      RunStepIsCounted(run, k - 1, MetricsAt(run, k - 1));
    }
  }

  /** Active rows that failed in steps of the reaper, or in all the others. */
  ghost function FailedBy(run: Run, k: nat, reaper: bool): nat
    requires k <= |run.events| && |run.states| == |run.events| + 1
  {
    if k == 0 then 0
    else FailedBy(run, k - 1, reaper)
         + (if run.events[k - 1].Reap? == reaper then |FromActive(run.states[k - 1], run.states[k], Failed)| else 0)
  }

  lemma {:induction false} FailuresByCause(run: Run, k: nat)
    requires Valid(run) && k <= |run.events|
    ensures MetricsAt(run, k).failedReported == FailedBy(run, k, false)
    ensures MetricsAt(run, k).failedReaped == FailedBy(run, k, true)
  {
    if k > 0 {
      FailuresByCause(run, k - 1);
      RunStepIsCounted(run, k - 1, MetricsAt(run, k - 1));
    }
  }

  lemma {:induction false} BothCauses(run: Run, k: nat)
    requires Valid(run) && k <= |run.events|
    ensures FailedBy(run, k, false) + FailedBy(run, k, true) == ActiveTo(run, k, Failed)
  {
    if k > 0 {
      BothCauses(run, k - 1);
    }
  }

  ghost function TakenFromQueue(run: Run, k: nat): nat
    requires k <= |run.events| && |run.states| == |run.events| + 1
  {
    if k == 0 then 0 else TakenFromQueue(run, k - 1) + |FromQueue(run.states[k - 1], run.states[k])|
  }

  ghost function TakenByReaper(run: Run, k: nat): nat
    requires k <= |run.events| && |run.states| == |run.events| + 1
  {
    if k == 0 then 0
    else TakenByReaper(run, k - 1)
         + (if run.events[k - 1].Reap? then |LeftActive(run.states[k - 1], run.states[k])| else 0)
  }

  lemma ClaimedRowIsCounted(s: Db, e: Event, s': Db)
    requires Step(s, e, s')
    ensures FromQueue(s, s') == if e.Claim? then {e.task} else {}
  {
    forall t | t in s.rows && t in s'.rows
      ensures t in FromQueue(s, s') <==> e.Claim? && e.task == t
    {
      RowAfter(s, e, s', t);
    }
  }

  lemma ReapedRowsAreCounted(s: Db, v: Time)
    ensures LeftActive(s, Apply(s, Reap(v))) == StaleIds(s, v)
  {
    forall t | t in s.rows
      ensures t in LeftActive(s, Apply(s, Reap(v))) <==> t in StaleIds(s, v)
    {
      RowAfter(s, Reap(v), Apply(s, Reap(v)), t);
    }
  }

  /** The claimed counter is the number of times a row went from the queue to a worker, the reaped
      counter the number of rows the reaper took out of active work. */
  lemma {:induction false} ClaimsAndReapsAreCounted(run: Run, k: nat)
    requires Valid(run) && k <= |run.events|
    ensures MetricsAt(run, k).claimed == TakenFromQueue(run, k)
    ensures MetricsAt(run, k).reaped == TakenByReaper(run, k)
  {
    if k > 0 {
      ClaimsAndReapsAreCounted(run, k - 1);
      assert StepAt(run, k - 1);
      ClaimedRowIsCounted(run.states[k - 1], run.events[k - 1], run.states[k]);
      if run.events[k - 1].Reap? {
        ReapedRowsAreCounted(run.states[k - 1], run.events[k - 1].visibility);
      }
    }
  }

  lemma {:induction false} FinalizationsAreTransitions(run: Run, k: nat, success: bool)
    requires Valid(run) && k <= |run.events|
    ensures ParkedTo(run, k, if success then Completed else Failed) == Finalizations(run, k, success)
  {
    if k > 0 {
      FinalizationsAreTransitions(run, k - 1, success);
      RunStepIsCounted(run, k - 1, ZERO);
    }
  }

  /** At every point between calls, the completed counter is the number of active-to-completed
      transitions and the two failed counters together are the number of active-to-failed ones, each
      of those its own cause. Tasks that finish out of parking are in neither: there are as many of those as accepted
      FinalizeTask calls. */
  lemma CountersAreTransitions(run: Run, k: nat)
    requires Valid(run) && k <= |run.events|
    ensures MetricsAt(run, k).completed == ActiveTo(run, k, Completed)
    ensures MetricsAt(run, k).failedReported + MetricsAt(run, k).failedReaped == ActiveTo(run, k, Failed)
    ensures MetricsAt(run, k).failedReported == FailedBy(run, k, false)
    ensures MetricsAt(run, k).failedReaped == FailedBy(run, k, true)
    ensures ParkedTo(run, k, Completed) == Finalizations(run, k, true)
    ensures ParkedTo(run, k, Failed) == Finalizations(run, k, false)
  {
    CompletedAreTransitions(run, k);
    FailuresByCause(run, k);
    BothCauses(run, k);
    FinalizationsAreTransitions(run, k, true);
    FinalizationsAreTransitions(run, k, false);
  }

  // ---- rows are conserved ----

  ghost function Creations(run: Run, k: nat): nat
    requires k <= |run.events|
  {
    if k == 0 then 0 else Creations(run, k - 1) + (if run.events[k - 1].Create? then 1 else 0)
  }

  ghost function Deletions(run: Run, k: nat): nat
    requires k <= |run.events|
  {
    if k == 0 then 0 else Deletions(run, k - 1) + (if run.events[k - 1].Delete? then 1 else 0)
  }

  lemma StepKeys(s: Db, e: Event, s': Db)
    requires Step(s, e, s')
    ensures e.Create? ==> e.task !in s.rows && s'.rows.Keys == s.rows.Keys + {e.task}
    ensures e.Delete? ==> e.task in s.rows && s'.rows.Keys == s.rows.Keys - {e.task}
    ensures !e.Create? && !e.Delete? ==> s'.rows.Keys == s.rows.Keys
  {
  }

  lemma {:induction false} RowsAreCreatedMinusDeleted(run: Run, k: nat)
    requires Valid(run) && k <= |run.events|
    ensures |run.states[k].rows.Keys| == Creations(run, k) - Deletions(run, k)
  {
    if k > 0 {
      RowsAreCreatedMinusDeleted(run, k - 1);
      assert StepAt(run, k - 1);
      StepKeys(run.states[k - 1], run.events[k - 1], run.states[k]);
    }
  }

  const STATUSES: seq<Status> := [Pending, Claimed, InProgress, PROpened, ReviewRequested, Completed, Failed]

  function WithStatusIn(rows: map<TaskId, Task>, statuses: seq<Status>): set<TaskId> {
    set t | t in rows && rows[t].status in statuses
  }

  function StatusTotal(rows: map<TaskId, Task>, statuses: seq<Status>): nat {
    if statuses == [] then 0
    else |WithStatus(rows, statuses[0])| + StatusTotal(rows, statuses[1..])
  }

  lemma {:induction false} StatusesPartition(rows: map<TaskId, Task>, statuses: seq<Status>)
    requires forall i, j :: 0 <= i < j < |statuses| ==> statuses[i] != statuses[j]
    ensures |WithStatusIn(rows, statuses)| == StatusTotal(rows, statuses)
  {
    if statuses == [] {
      assert WithStatusIn(rows, []) == {};
    } else {
      var head, tail := statuses[0], statuses[1..];
      StatusesPartition(rows, tail);
      assert head !in tail && statuses == [head] + tail;
      assert WithStatusIn(rows, statuses) == WithStatus(rows, head) + WithStatusIn(rows, tail);
      assert WithStatus(rows, head) !! WithStatusIn(rows, tail);
    }
  }

  lemma EveryStatusIsListed(status: Status)
    ensures status in STATUSES
  {
    var i := match status
      case Pending => 0 case Claimed => 1 case InProgress => 2 case PROpened => 3
      case ReviewRequested => 4 case Completed => 5 case Failed => 6;
    assert STATUSES[i] == status;
  }

  lemma StatusesCoverRows(rows: map<TaskId, Task>)
    ensures |rows.Keys| == StatusTotal(rows, STATUSES)
  {
    StatusesPartition(rows, STATUSES);
    forall t | t in rows
      ensures t in WithStatusIn(rows, STATUSES)
    {
      EveryStatusIsListed(rows[t].status);
    }
    assert WithStatusIn(rows, STATUSES) == rows.Keys;
  }

  /** No task is lost or made up: the seven status counts add up to creations minus deletions. */
  lemma TasksAreConserved(run: Run, k: nat)
    requires Valid(run) && k <= |run.events|
    ensures Creations(run, k) - Deletions(run, k) == StatusTotal(run.states[k].rows, STATUSES)
  {
    RowsAreCreatedMinusDeleted(run, k);
    StatusesCoverRows(run.states[k].rows);
  }

  // ---- the service that keeps the counters ----

  lemma ExtendCounts(run: Run, e: Event)
    requires Valid(run) && Accepts(run.states[|run.events|], e)
    ensures var r := Extend(run, e);
            MetricsAt(r, |r.events|) == Counted(MetricsAt(run, |run.events|), run.states[|run.events|], e)
  {
    var r := Extend(run, e);
    PrefixMetrics(run, r, |run.events|);
  }

  lemma {:induction false} PrefixMetrics(run: Run, r: Run, k: nat)
    requires k <= |run.events| <= |r.events|
    requires |run.states| == |run.events| + 1 && |r.states| == |r.events| + 1
    requires run.states <= r.states && run.events <= r.events
    ensures MetricsAt(r, k) == MetricsAt(run, k)
  {
    if k > 0 {
      PrefixMetrics(run, r, k - 1);
    }
  }

  /** Store calls whose handlers touch no counter. */
  predicate Uncounted(e: Event) {
    !e.Claim? && !e.ReportSuccess? && !e.ReportFailure? && !e.Reap?
  }

  /** The handlers and the reaper loop body that touch a counter, over one store, and the call that
      puts the first task there. Any other handler passes an uncounted call on: PassedOn. */
  class Mastermind {
    const store: Store.Store
    var claimed: nat
    var claimedEmpty: nat
    var completed: nat
    var failedReported: nat
    var failedReaped: nat
    var reaped: nat

    ghost predicate Good()
      reads this, store
    {
      && store.Good()
      && Metrics(claimed, completed, failedReported, failedReaped, reaped)
         == MetricsAt(store.run, |store.run.events|)
    }

    constructor (start: Time)
      ensures Good() && fresh(store) && store.Contents() == Empty(start) && store.run.events == []
      ensures claimedEmpty == 0
    {
      store := new Store.Store(start);
      claimed, claimedEmpty, completed, failedReported, failedReaped, reaped := 0, 0, 0, 0, 0, 0;
    }

    /** After an uncounted store call the counters are still right as they stand. */
    lemma PassedOn(before: Run, e: Event)
      requires Valid(before) && Accepts(before.states[|before.events|], e) && Uncounted(e)
      requires store.Good() && store.run == Extend(before, e)
      requires Metrics(claimed, completed, failedReported, failedReaped, reaped)
               == MetricsAt(before, |before.events|)
      ensures Good()
    {
      ExtendCounts(before, e);
    }

    method CreateTask(id: TaskId, input: NewTask) returns (reply: Store.Reply)
      requires Good() && id !in store.known && id !in store.rows
      modifies this, store
      ensures Good()
      ensures reply == if input.payloadOk then Store.Ok else Store.ErrInvalidInput
      ensures store.run == if input.payloadOk then Extend(old(store.run), Create(id, input)) else old(store.run)
    {
      ghost var before := store.run;
      reply := store.CreateTask(id, input);
      if reply == Store.Ok {
        PassedOn(before, Create(id, input));
      }
    }

    method ClaimTask(w: WorkerId) returns (t: Option<TaskId>)
      requires Good()
      modifies this, store
      ensures Good()
      ensures t.Some? ==> Accepts(old(store.Contents()), Claim(w, t.value))
                          && store.run == Extend(old(store.run), Claim(w, t.value))
      ensures t.None? ==> store.run == old(store.run)
                          && forall u :: u in store.rows ==> !Eligible(store.rows[u], store.now)
      ensures t.Some? ==> claimed == old(claimed) + 1 && claimedEmpty == old(claimedEmpty)
      ensures t.None? ==> claimed == old(claimed) && claimedEmpty == old(claimedEmpty) + 1
    {
      ghost var before := store.run;
      t := store.ClaimTask(w);
      if t.None? {
        claimedEmpty := claimedEmpty + 1;
      } else {
        claimed := claimed + 1;
        ExtendCounts(before, Claim(w, t.value));
      }
    }

    method ReportResult(w: WorkerId, t: TaskId, success: bool, error: string) returns (reply: Store.Reply)
      requires Good()
      modifies this, store
      ensures Good()
      ensures reply == if Owns(old(store.Contents()), w, t) then Store.Ok else Store.ErrNotOwner
      ensures reply == Store.Ok ==>
                store.run == Extend(old(store.run), if success then ReportSuccess(w, t) else ReportFailure(w, t, error))
      ensures reply != Store.Ok ==> store.run == old(store.run)
      ensures completed + failedReported <= old(completed + failedReported) + 1
      ensures completed + failedReported == old(completed + failedReported) + 1 <==>
              reply.Ok? && t in store.rows && (store.rows[t].status.Completed? || store.rows[t].status.Failed?)
    {
      ghost var before := store.run;
      ghost var s := store.Contents();
      var terminal;
      terminal, reply := store.ReportResult(w, t, success, error);
      if reply != Store.Ok {
        return;
      }
      if success {
        completed := completed + 1;
        ExtendCounts(before, ReportSuccess(w, t));
        RowAfter(s, ReportSuccess(w, t), store.Contents(), t);
      } else {
        if terminal {
          failedReported := failedReported + 1;
        }
        ExtendCounts(before, ReportFailure(w, t, error));
        RowAfter(s, ReportFailure(w, t, error), store.Contents(), t);
      }
    }

    /** One tick of the reaper. */
    method ReaperTick(visibility: Time)
      requires Good()
      modifies this, store
      ensures Good() && store.run == Extend(old(store.run), Reap(visibility))
    {
      ghost var before := store.run;
      ghost var s := store.Contents();
      var requeued, failed := store.ReapStale(visibility);
      var total := requeued + failed;
      if total > 0 {
        reaped := reaped + total;
        if failed > 0 {
          failedReaped := failedReaped + failed;
        }
      }
      StaleSplits(s, visibility);
      ExtendCounts(before, Reap(visibility));
    }

    /** An operator's finalize goes straight to the store: no counter moves. */
    method FinalizeTask(t: TaskId, success: bool, error: string) returns (reply: Store.Reply)
      requires Good()
      modifies this, store
      ensures Good()
      ensures reply == if Accepts(old(store.Contents()), Finalize(t, success, error)) then Store.Ok
                       else if t !in old(store.rows) then Store.ErrNotFound else Store.ErrInvalidTransition
      ensures reply == Store.Ok ==> store.run == Extend(old(store.run), Finalize(t, success, error))
      ensures reply != Store.Ok ==> store.run == old(store.run)
      ensures completed == old(completed) && failedReported == old(failedReported) && failedReaped == old(failedReaped)
    {
      ghost var before := store.run;
      reply := store.FinalizeTask(t, success, error);
      if reply == Store.Ok {
        PassedOn(before, Finalize(t, success, error));
      }
    }
  }
}
