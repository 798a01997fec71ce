// The `tasks` table, one row at a time: the columns, the state predicates, and
// the effect on a single row of each SQL statement the store issues.

module Tasks {

  datatype Option<+T> = None | Some(value: T)

  type TaskId = nat       // a UUID, read as the number it encodes
  type WorkerId = string
  type Time = int         // microseconds, the resolution of TIMESTAMPTZ

  const SECOND: Time := 1_000_000
  const BACKOFF_STEP: Time := 30 * SECOND
  const DEFAULT_MAX_ATTEMPTS := 3
  const LEASE_EXPIRED := "lease expired"

  datatype Status =
    | Pending
    | Claimed
    | InProgress
    | PROpened
    | ReviewRequested
    | Completed
    | Failed

  datatype Task = Task(
    name: string,
    payload: string,
    priority: int,
    status: Status,
    scheduledFor: Option<Time>,
    attempts: int,
    maxAttempts: int,
    claimedBy: Option<WorkerId>,
    claimedAt: Option<Time>,
    heartbeatAt: Option<Time>,
    completedAt: Option<Time>,
    lastError: Option<string>,
    note: Option<string>,
    jiraUrl: Option<string>,
    prUrl: Option<string>,
    createdAt: Time,
    updatedAt: Time
  )

  datatype NewTask = NewTask(
    name: string,
    payload: string,
    payloadOk: bool,        // outcome of validateCreateInput
    priority: int,
    maxAttempts: int,
    scheduledFor: Option<Time>,
    jiraUrl: Option<string>,
    prUrl: Option<string>
  )

  datatype Edit = Edit(
    name: string,
    priority: int,
    maxAttempts: int,
    scheduledFor: Option<Time>,
    payload: Option<string>,
    jiraUrl: Option<string>,
    prUrl: Option<string>
  )

  // ---- which rows a statement's WHERE clause selects ----

  predicate Active(r: Task) {
    r.status.Claimed? || r.status.InProgress?
  }

  predicate Parked(r: Task) {
    r.status.PROpened? || r.status.ReviewRequested?
  }

  /** Rows an operator may delete or requeue. */
  predicate Loose(r: Task) {
    r.status.Pending? || r.status.Completed? || r.status.Failed?
  }

  predicate OwnedBy(r: Task, w: WorkerId) {
    r.claimedBy == Some(w) && Active(r)
  }

  predicate Eligible(r: Task, now: Time) {
    r.status.Pending? && (r.scheduledFor.None? || r.scheduledFor.value <= now)
  }

  /** SQL comparison with a NULL heartbeat is not true, so such a row is not stale. */
  predicate Stale(r: Task, now: Time, visibility: Time) {
    Active(r) && r.heartbeatAt.Some? && r.heartbeatAt.value < now - visibility
  }

  predicate Exhausted(r: Task) {
    r.attempts >= r.maxAttempts
  }

  /** ORDER BY priority DESC, created_at ASC, read as "a comes strictly before b". */
  predicate Before(a: Task, b: Task) {
    if a.priority != b.priority then a.priority > b.priority else a.createdAt < b.createdAt
  }

  // ---- SET clauses ----

  function NonEmpty(s: string): Option<string> {
    if s == "" then None else Some(s)
  }

  function Created(input: NewTask, now: Time): Task {
    Task(input.name, input.payload, input.priority, Pending, input.scheduledFor, 0,
         if input.maxAttempts <= 0 then DEFAULT_MAX_ATTEMPTS else input.maxAttempts,
         None, None, None, None, None, None, input.jiraUrl, input.prUrl, now, now)
  }

  function Taken(r: Task, w: WorkerId, now: Time): Task {
    r.(status := Claimed,
       claimedBy := Some(w), claimedAt := Some(now), heartbeatAt := Some(now),
       note := None, updatedAt := now, attempts := r.attempts + 1)
  }

  /** The lease refresh shared by Heartbeat, UpdateProgress and AppendTaskLog. */
  function Refreshed(r: Task, now: Time): Task {
    r.(heartbeatAt := Some(now),
       status := if r.status.Claimed? then InProgress else r.status,
       updatedAt := now)
  }

  function Noted(r: Task, note: string, now: Time): Task {
    Refreshed(r, now).(note := NonEmpty(note))
  }

  function JiraLinked(r: Task, url: string, now: Time): Task {
    r.(jiraUrl := NonEmpty(url), heartbeatAt := Some(now), updatedAt := now)
  }

  function PRParked(r: Task, url: string, now: Time): Task {
    r.(status := PROpened, prUrl := Some(url),
       claimedBy := None, claimedAt := None, heartbeatAt := None, updatedAt := now)
  }

  function Succeeded(r: Task, now: Time): Task {
    r.(status := Completed, completedAt := Some(now), lastError := None, updatedAt := now)
  }

  /** A failed attempt, reported or reaped: retry with linear backoff, or terminate. */
  function AttemptFailed(r: Task, error: string, now: Time): Task {
    if Exhausted(r) then
      r.(status := Failed, lastError := Some(error), updatedAt := now)
    else
      r.(status := Pending, scheduledFor := Some(now + r.attempts * BACKOFF_STEP),
         claimedBy := None, claimedAt := None, heartbeatAt := None,
         lastError := Some(error), updatedAt := now)
  }

  function Reaped(r: Task, now: Time, visibility: Time): Task {
    if Stale(r, now, visibility) then AttemptFailed(r, LEASE_EXPIRED, now) else r
  }

  function ReviewAsked(r: Task, now: Time): Task {
    r.(status := ReviewRequested, updatedAt := now)
  }

  function Finalized(r: Task, success: bool, error: string, now: Time): Task {
    if success then
      r.(status := Completed, completedAt := Some(now), updatedAt := now)
    else
      r.(status := Failed, updatedAt := now,
         lastError := if error == "" then r.lastError else Some(error))
  }

  function Edited(r: Task, e: Edit, now: Time): Task {
    r.(name := e.name, priority := e.priority, maxAttempts := e.maxAttempts,
       scheduledFor := e.scheduledFor,
       payload := if e.payload.Some? then e.payload.value else r.payload,
       jiraUrl := e.jiraUrl, prUrl := e.prUrl, updatedAt := now)
  }

  function Relinked(r: Task, jira: Option<string>, pr: Option<string>, now: Time): Task {
    r.(jiraUrl := jira, prUrl := pr, updatedAt := now)
  }

  function Requeued(r: Task, now: Time): Task {
    r.(status := Pending, claimedBy := None, claimedAt := None, heartbeatAt := None,
       completedAt := None, lastError := None, note := None, prUrl := None,
       attempts := 0, scheduledFor := None, updatedAt := now)
  }
}
