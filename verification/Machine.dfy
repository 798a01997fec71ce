// The store as a state machine. An event is one accepted store call, or a step
// of the clock; a run is any sequence of them, from any mix of callers.

module Machine {
  import opened Tasks

  datatype LogEntry = LogEntry(id: nat, task: TaskId, message: string, createdAt: Time)

  datatype Db = Db(
    rows: map<TaskId, Task>,
    logs: seq<LogEntry>,
    nextLog: nat,           // the BIGSERIAL behind task_logs.id
    known: set<TaskId>,     // every id ever generated: UUIDs are not reused
    now: Time
  )

  datatype Event =
    | Tick(to: Time)
    | Create(task: TaskId, input: NewTask)
    | Claim(worker: WorkerId, task: TaskId)
    | Heartbeat(worker: WorkerId, task: TaskId)
    | Progress(worker: WorkerId, task: TaskId, note: string)
    | AppendLog(worker: WorkerId, task: TaskId, message: string)
    | SetJira(worker: WorkerId, task: TaskId, url: string)
    | OpenPR(worker: WorkerId, task: TaskId, url: string)
    | ReportSuccess(worker: WorkerId, task: TaskId)
    | ReportFailure(worker: WorkerId, task: TaskId, error: string)
    | Reap(visibility: Time)
    | RequestReview(task: TaskId)
    | Finalize(task: TaskId, success: bool, error: string)
    | Update(task: TaskId, edit: Edit)
    | UpdateLinks(task: TaskId, jira: Option<string>, pr: Option<string>)
    | Delete(task: TaskId)
    | Requeue(task: TaskId)

  /** The row ClaimTask's subselect may return: eligible, and no eligible row sorts before it. */
  ghost predicate BestEligible(rows: map<TaskId, Task>, now: Time, t: TaskId) {
    && t in rows && Eligible(rows[t], now)
    && forall u | u in rows && Eligible(rows[u], now) :: !Before(rows[u], rows[t])
  }

  predicate Owns(s: Db, w: WorkerId, t: TaskId) {
    t in s.rows && OwnedBy(s.rows[t], w)
  }

  /** The guard under which the store accepts the call. */
  ghost predicate Accepts(s: Db, e: Event) {
    match e
    case Tick(to) => s.now <= to
    case Create(t, input) => t !in s.known && t !in s.rows && input.payloadOk
    case Claim(w, t) => BestEligible(s.rows, s.now, t)
    case Heartbeat(w, t) => Owns(s, w, t)
    case Progress(w, t, _) => Owns(s, w, t)
    case AppendLog(w, t, _) => Owns(s, w, t)
    case SetJira(w, t, _) => Owns(s, w, t)
    case OpenPR(w, t, url) => url != "" && Owns(s, w, t) && s.rows[t].status.InProgress?
    case ReportSuccess(w, t) => Owns(s, w, t)
    case ReportFailure(w, t, _) => Owns(s, w, t)
    case Reap(_) => true
    case RequestReview(t) => t in s.rows && s.rows[t].status.PROpened?
    case Finalize(t, _, _) => t in s.rows && Parked(s.rows[t])
    case Update(t, _) => t in s.rows && s.rows[t].status.Pending?
    case UpdateLinks(t, _, _) => t in s.rows
    case Delete(t) => t in s.rows && Loose(s.rows[t])
    case Requeue(t) => t in s.rows && Loose(s.rows[t])
  }

  /** What the event writes to the row `id`: for all but Reap, nothing unless `id` is its task. */
  function Touch(now: Time, e: Event, id: TaskId, r: Task): Task {
    match e
    case Reap(v) => Reaped(r, now, v)
    case Tick(_) => r
    case _ => if e.task == id then TouchOwn(now, e, r) else r
  }

  function TouchOwn(now: Time, e: Event, r: Task): Task {
    match e
    case Claim(w, _) => Taken(r, w, now)
    case Heartbeat(_, _) => Refreshed(r, now)
    case Progress(_, _, note) => Noted(r, note, now)
    case AppendLog(_, _, _) => Refreshed(r, now)
    case SetJira(_, _, url) => JiraLinked(r, url, now)
    case OpenPR(_, _, url) => PRParked(r, url, now)
    case ReportSuccess(_, _) => Succeeded(r, now)
    case ReportFailure(_, _, error) => AttemptFailed(r, error, now)
    case RequestReview(_) => ReviewAsked(r, now)
    case Finalize(_, success, error) => Finalized(r, success, error, now)
    case Update(_, edit) => Edited(r, edit, now)
    case UpdateLinks(_, jira, pr) => Relinked(r, jira, pr, now)
    case Requeue(_) => Requeued(r, now)
    case _ => r
  }

  function TouchAll(s: Db, e: Event): map<TaskId, Task> {
    map id | id in s.rows :: Touch(s.now, e, id, s.rows[id])
  }

  function WithoutTask(logs: seq<LogEntry>, t: TaskId): seq<LogEntry> {
    if logs == [] then []
    else if logs[0].task == t then WithoutTask(logs[1..], t)
    else [logs[0]] + WithoutTask(logs[1..], t)
  }

  function Apply(s: Db, e: Event): Db {
    match e
    case Tick(to) => s.(now := to)
    case Create(t, input) => s.(rows := s.rows[t := Created(input, s.now)], known := s.known + {t})
    case Delete(t) => s.(rows := s.rows - {t}, logs := WithoutTask(s.logs, t))
    case AppendLog(w, t, message) =>
      s.(rows := TouchAll(s, e),
         logs := s.logs + [LogEntry(s.nextLog, t, message, s.now)],
         nextLog := s.nextLog + 1)
    case _ => s.(rows := TouchAll(s, e))
  }

  ghost predicate Step(s: Db, e: Event, s': Db) {
    Accepts(s, e) && s' == Apply(s, e)
  }

  function Empty(now: Time): Db {
    Db(map[], [], 0, {}, now)
  }

  // ---- runs ----

  datatype Run = Run(states: seq<Db>, events: seq<Event>)

  ghost predicate StepAt(run: Run, k: nat)
    requires k < |run.events| && |run.states| == |run.events| + 1
  {
    Step(run.states[k], run.events[k], run.states[k + 1])
  }

  ghost predicate Valid(run: Run) {
    && |run.states| == |run.events| + 1
    && run.states[0] == Empty(run.states[0].now)
    && forall k: nat :: k < |run.events| ==> StepAt(run, k)
  }

  /** One more accepted event on the end of a run. */
  ghost function Extend(run: Run, e: Event): (r: Run)
    requires Valid(run) && Accepts(run.states[|run.events|], e)
    ensures Valid(r) && r.events == run.events + [e]
    ensures r.states[|r.events|] == Apply(run.states[|run.events|], e)
  {
    var r := Run(run.states + [Apply(run.states[|run.events|], e)], run.events + [e]);
    assert forall k: nat :: k < |r.events| ==> StepAt(r, k) by {
      forall k: nat | k < |r.events|
        ensures StepAt(r, k)
      {
        if k < |run.events| {
          assert StepAt(run, k);
        }
      }
    }
    r
  }

  // ---- one step, seen from one row ----

  /** The row's next value, for a row that is there before and after. */
  lemma RowAfter(s: Db, e: Event, s': Db, t: TaskId)
    requires Step(s, e, s') && t in s.rows && t in s'.rows
    ensures s'.rows[t] == Touch(s.now, e, t, s.rows[t])
  {
  }

  lemma RowComesOrGoes(s: Db, e: Event, s': Db, t: TaskId)
    requires Step(s, e, s')
    ensures t in s.rows && t !in s'.rows <==> e == Delete(t)
    ensures t !in s.rows && t in s'.rows <==> e.Create? && e.task == t
    ensures t !in s.rows && t in s'.rows ==> s'.rows[t] == Created(e.input, s.now)
  {
  }

  lemma ClockForward(run: Run, i: nat, j: nat)
    requires Valid(run) && i <= j <= |run.events|
    ensures run.states[i].now <= run.states[j].now
    decreases j
  {
    if i < j {
      ClockForward(run, i, j - 1);
      assert StepAt(run, j - 1);
    }
  }
}
