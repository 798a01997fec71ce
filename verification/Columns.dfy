// The table read column by column. Machine says statement by statement what is written to a row;
// here it is said once more, column by column, what each column holds: the value written by the
// last accepted call that writes it.

module Columns {
  import opened Tasks
  import opened Machine
  import opened Invariants
  import opened Leases

  datatype Column =
    | NAME | PAYLOAD | PRIORITY | STATUS | SCHEDULED_FOR | ATTEMPT_COUNT | MAX_ATTEMPTS
    | CLAIMED_BY | CLAIMED_AT | LAST_HEARTBEAT_AT | COMPLETED_AT | LAST_ERROR | PROGRESS_NOTE
    | JIRA_URL | GITHUB_PR_URL | CREATED_AT | UPDATED_AT

  datatype Value =
    | Text(text: string)
    | Number(number: int)
    | State(status: Status)
    | MaybeText(maybeText: Option<string>)
    | MaybeTime(maybeTime: Option<Time>)

  function Cell(r: Task, c: Column): Value {
    match c
    case NAME => Text(r.name)
    case PAYLOAD => Text(r.payload)
    case PRIORITY => Number(r.priority)
    case STATUS => State(r.status)
    case SCHEDULED_FOR => MaybeTime(r.scheduledFor)
    case ATTEMPT_COUNT => Number(r.attempts)
    case MAX_ATTEMPTS => Number(r.maxAttempts)
    case CLAIMED_BY => MaybeText(r.claimedBy)
    case CLAIMED_AT => MaybeTime(r.claimedAt)
    case LAST_HEARTBEAT_AT => MaybeTime(r.heartbeatAt)
    case COMPLETED_AT => MaybeTime(r.completedAt)
    case LAST_ERROR => MaybeText(r.lastError)
    case PROGRESS_NOTE => MaybeText(r.note)
    case JIRA_URL => MaybeText(r.jiraUrl)
    case GITHUB_PR_URL => MaybeText(r.prUrl)
    case CREATED_AT => Number(r.createdAt)
    case UPDATED_AT => Number(r.updatedAt)
  }

  // ---- which calls write a column, and what ----

  /** The call fails an attempt at t: a holder reports it, or the reaper finds the lease expired. */
  predicate FailsAttempt(s: Db, e: Event, t: TaskId) {
    t in s.rows &&
    match e
    case ReportFailure(_, u, _) => u == t
    case Reap(visibility) =>
      s.rows[t].status in {Claimed, InProgress}
      && s.rows[t].heartbeatAt.Some? && s.rows[t].heartbeatAt.value < s.now - visibility
    case _ => false
  }

  /** ... and attempts are left, so the task goes back to the queue. */
  predicate Retries(s: Db, e: Event, t: TaskId) {
    FailsAttempt(s, e, t) && s.rows[t].attempts < s.rows[t].maxAttempts
  }

  predicate On(e: Event, t: TaskId) {
    !e.Tick? && !e.Reap? && e.task == t
  }

  /** Calls that take the claim off a task and leave it without an owner. */
  predicate Frees(s: Db, e: Event, t: TaskId) {
    ((e.Create? || e.OpenPR? || e.Requeue?) && e.task == t) || Retries(s, e, t)
  }

  function WroteSchedule(s: Db, e: Event, t: TaskId): Option<Value> {
    if Retries(s, e, t) then Some(MaybeTime(Some(s.now + s.rows[t].attempts * 30_000_000)))
    else if !On(e, t) then None
    else match e
      case Create(_, input) => Some(MaybeTime(input.scheduledFor))
      case Update(_, edit) => Some(MaybeTime(edit.scheduledFor))
      case Requeue(_) => Some(MaybeTime(None))
      case _ => None
  }

  function WroteStatus(s: Db, e: Event, t: TaskId): Option<Value> {
    if FailsAttempt(s, e, t) then Some(State(if Retries(s, e, t) then Pending else Failed))
    else if !On(e, t) then None
    else match e
      case Create(_, _) => Some(State(Pending))
      case Claim(_, _) => Some(State(Claimed))
      case Heartbeat(_, _) => Some(State(InProgress))
      case Progress(_, _, _) => Some(State(InProgress))
      case AppendLog(_, _, _) => Some(State(InProgress))
      case OpenPR(_, _, _) => Some(State(PROpened))
      case RequestReview(_) => Some(State(ReviewRequested))
      case ReportSuccess(_, _) => Some(State(Completed))
      case Finalize(_, success, _) => Some(State(if success then Completed else Failed))
      case Requeue(_) => Some(State(Pending))
      case _ => None
  }

  function WroteError(s: Db, e: Event, t: TaskId): Option<Value> {
    if FailsAttempt(s, e, t) then Some(MaybeText(Some(if e.Reap? then "lease expired" else e.error)))
    else if !On(e, t) then None
    else match e
      case Create(_, _) => Some(MaybeText(None))
      case ReportSuccess(_, _) => Some(MaybeText(None))
      case Finalize(_, success, error) => if success || error == "" then None else Some(MaybeText(Some(error)))
      case Requeue(_) => Some(MaybeText(None))
      case _ => None
  }

  /** Columns written with what the caller gives. */
  function WroteInput(e: Event, t: TaskId, c: Column): Option<Value> {
    if !On(e, t) then None
    else match e
      case Create(_, input) =>
        (match c
         case NAME => Some(Text(input.name))
         case PAYLOAD => Some(Text(input.payload))
         case PRIORITY => Some(Number(input.priority))
         case MAX_ATTEMPTS => Some(Number(if input.maxAttempts <= 0 then 3 else input.maxAttempts))
         case JIRA_URL => Some(MaybeText(input.jiraUrl))
         case GITHUB_PR_URL => Some(MaybeText(input.prUrl))
         case PROGRESS_NOTE => Some(MaybeText(None))
         case _ => None)
      case Update(_, edit) =>
        (match c
         case NAME => Some(Text(edit.name))
         case PAYLOAD => if edit.payload.Some? then Some(Text(edit.payload.value)) else None
         case PRIORITY => Some(Number(edit.priority))
         case MAX_ATTEMPTS => Some(Number(edit.maxAttempts))
         case JIRA_URL => Some(MaybeText(edit.jiraUrl))
         case GITHUB_PR_URL => Some(MaybeText(edit.prUrl))
         case _ => None)
      case UpdateLinks(_, jira, pr) =>
        if c.JIRA_URL? then Some(MaybeText(jira)) else if c.GITHUB_PR_URL? then Some(MaybeText(pr)) else None
      case SetJira(_, _, url) =>
        if c.JIRA_URL? then Some(MaybeText(if url == "" then None else Some(url))) else None
      case OpenPR(_, _, url) => if c.GITHUB_PR_URL? then Some(MaybeText(Some(url))) else None
      case Progress(_, _, note) =>
        if c.PROGRESS_NOTE? then Some(MaybeText(if note == "" then None else Some(note))) else None
      case Claim(_, _) => if c.PROGRESS_NOTE? then Some(MaybeText(None)) else None
      case Requeue(_) => if c.PROGRESS_NOTE? || c.GITHUB_PR_URL? then Some(MaybeText(None)) else None
      case _ => None
  }

  /** Columns that say who has the task, how often it was claimed and when things happened to it. */
  function WroteMark(s: Db, e: Event, t: TaskId, c: Column): Option<Value> {
    match c
    case CLAIMED_BY =>
      if Frees(s, e, t) then Some(MaybeText(None))
      else if Claims(e, t) then Some(MaybeText(Some(e.worker))) else None
    case CLAIMED_AT =>
      if Frees(s, e, t) then Some(MaybeTime(None))
      else if Claims(e, t) then Some(MaybeTime(Some(s.now))) else None
    case LAST_HEARTBEAT_AT =>
      if Frees(s, e, t) then Some(MaybeTime(None))
      else if On(e, t) && (e.Claim? || e.Heartbeat? || e.Progress? || e.AppendLog? || e.SetJira?) then
        Some(MaybeTime(Some(s.now)))
      else None
    case COMPLETED_AT =>
      if On(e, t) && (e.ReportSuccess? || (e.Finalize? && e.success)) then Some(MaybeTime(Some(s.now)))
      else if On(e, t) && (e.Create? || e.Requeue?) then Some(MaybeTime(None)) else None
    case ATTEMPT_COUNT =>
      if Claims(e, t) && t in s.rows then Some(Number(s.rows[t].attempts + 1))
      else if On(e, t) && (e.Create? || e.Requeue?) then Some(Number(0)) else None
    case CREATED_AT => if On(e, t) && e.Create? then Some(Number(s.now)) else None
    case UPDATED_AT => if On(e, t) || FailsAttempt(s, e, t) then Some(Number(s.now)) else None
    case _ => None
  }

  /** What the accepted call e writes into column c of task t, if it writes it. */
  function Wrote(s: Db, e: Event, t: TaskId, c: Column): Option<Value> {
    match c
    case SCHEDULED_FOR => WroteSchedule(s, e, t)
    case STATUS => WroteStatus(s, e, t)
    case LAST_ERROR => WroteError(s, e, t)
    case NAME => WroteInput(e, t, c)
    case PAYLOAD => WroteInput(e, t, c)
    case PRIORITY => WroteInput(e, t, c)
    case MAX_ATTEMPTS => WroteInput(e, t, c)
    case JIRA_URL => WroteInput(e, t, c)
    case GITHUB_PR_URL => WroteInput(e, t, c)
    case PROGRESS_NOTE => WroteInput(e, t, c)
    case _ => WroteMark(s, e, t, c)
  }

  predicate OfOutcome(c: Column) {
    c.SCHEDULED_FOR? || c.LAST_ERROR?
  }

  predicate OfInput(c: Column) {
    c.NAME? || c.PAYLOAD? || c.PRIORITY? || c.MAX_ATTEMPTS?
  }

  predicate OfNotes(c: Column) {
    c.JIRA_URL? || c.GITHUB_PR_URL? || c.PROGRESS_NOTE?
  }

  /** The row after the call, in one column. */
  ghost predicate Agrees(s: Db, e: Event, t: TaskId, c: Column)
    requires t in s.rows
  {
    Cell(Touch(s.now, e, t, s.rows[t]), c) ==
    if Wrote(s, e, t, c).Some? then Wrote(s, e, t, c).value else Cell(s.rows[t], c)
  }

  lemma TouchOnOutcome(s: Db, e: Event, t: TaskId, c: Column)
    requires t in s.rows && Accepts(s, e) && !e.Create? && e != Delete(t) && OfOutcome(c)
    ensures Agrees(s, e, t, c)
  {
  }

  lemma TouchOnStatus(s: Db, e: Event, t: TaskId)
    requires t in s.rows && Accepts(s, e) && !e.Create? && e != Delete(t)
    ensures Agrees(s, e, t, STATUS)
  {
  }

  lemma TouchOnUpdated(s: Db, e: Event, t: TaskId)
    requires t in s.rows && !e.Create? && e != Delete(t)
    ensures Agrees(s, e, t, UPDATED_AT)
  {
  }

  lemma TouchOnInput(s: Db, e: Event, t: TaskId, c: Column)
    requires t in s.rows && !e.Create? && OfInput(c)
    ensures Agrees(s, e, t, c)
  {
  }

  lemma TouchOnNotes(s: Db, e: Event, t: TaskId, c: Column)
    requires t in s.rows && !e.Create? && OfNotes(c)
    ensures Agrees(s, e, t, c)
  {
  }

  lemma TouchOnOwner(s: Db, e: Event, t: TaskId, c: Column)
    requires t in s.rows && !e.Create? && (c.CLAIMED_BY? || c.CLAIMED_AT?)
    ensures Agrees(s, e, t, c)
  {
  }

  lemma TouchOnMark(s: Db, e: Event, t: TaskId, c: Column)
    requires t in s.rows && !e.Create? && e != Delete(t)
    requires c.LAST_HEARTBEAT_AT? || c.COMPLETED_AT? || c.ATTEMPT_COUNT? || c.CREATED_AT?
    ensures Agrees(s, e, t, c)
  {
  }

  lemma TouchOnColumn(s: Db, e: Event, t: TaskId, c: Column)
    requires t in s.rows && Accepts(s, e) && !e.Create? && e != Delete(t)
    ensures Agrees(s, e, t, c)
  {
    if OfOutcome(c) {
      TouchOnOutcome(s, e, t, c);
    } else if OfInput(c) {
      TouchOnInput(s, e, t, c);
    } else if OfNotes(c) {
      TouchOnNotes(s, e, t, c);
    } else if c.CLAIMED_BY? || c.CLAIMED_AT? {
      TouchOnOwner(s, e, t, c);
    } else if c.STATUS? {
      TouchOnStatus(s, e, t);
    } else if c.UPDATED_AT? {
      TouchOnUpdated(s, e, t);
    } else {
      TouchOnMark(s, e, t, c);
    }
  }

  lemma CreateOnColumn(s: Db, e: Event, c: Column)
    requires e.Create?
    ensures Wrote(s, e, e.task, c) == Some(Cell(Created(e.input, s.now), c))
  {
  }

  /** One step, one column: what the call writes, or what was there. */
  lemma StepOnColumn(s: Db, e: Event, s': Db, t: TaskId, c: Column)
    requires Step(s, e, s') && t in s'.rows
    ensures Wrote(s, e, t, c).Some? ==> Cell(s'.rows[t], c) == Wrote(s, e, t, c).value
    ensures Wrote(s, e, t, c).None? ==> t in s.rows && Cell(s'.rows[t], c) == Cell(s.rows[t], c)
  {
    RowComesOrGoes(s, e, s', t);
    if t !in s.rows {
      CreateOnColumn(s, e, c);
    } else {
      RowAfter(s, e, s', t);
      if !e.Create? {
        TouchOnColumn(s, e, t, c);
      }
    }
  }

  ghost function LastWrite(run: Run, k: nat, t: TaskId, c: Column): (m: Option<nat>)
    requires k <= |run.events| && |run.states| == |run.events| + 1
    ensures m.Some? ==> m.value < k && Wrote(run.states[m.value], run.events[m.value], t, c).Some?
    ensures m.Some? ==> forall j :: m.value < j < k ==> Wrote(run.states[j], run.events[j], t, c).None?
    ensures m.None? ==> forall j :: 0 <= j < k ==> Wrote(run.states[j], run.events[j], t, c).None?
  {
    if k == 0 then None
    else if Wrote(run.states[k - 1], run.events[k - 1], t, c).Some? then Some(k - 1)
    else LastWrite(run, k - 1, t, c)
  }

  /** At every point of every run, every column of every row holds what the last accepted call that
      writes it wrote. */
  lemma {:induction false} ColumnsAreHistory(run: Run, k: nat, t: TaskId, c: Column)
    requires Valid(run) && k <= |run.events| && t in run.states[k].rows
    ensures LastWrite(run, k, t, c).Some?
    ensures var m := LastWrite(run, k, t, c).value;
            Some(Cell(run.states[k].rows[t], c)) == Wrote(run.states[m], run.events[m], t, c)
  {
    assert k > 0;
    assert StepAt(run, k - 1);
    StepOnColumn(run.states[k - 1], run.events[k - 1], run.states[k], t, c);
    if Wrote(run.states[k - 1], run.events[k - 1], t, c).None? {
      ColumnsAreHistory(run, k - 1, t, c);
    }
  }
}
