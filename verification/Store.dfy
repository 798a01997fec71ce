// The store: one method per store function, over a mutable table. Each method is shown to be
// one event of the machine, or to leave the table alone; the ghost `run` records the events, so
// every theorem about runs is a theorem about every store object.

module Store {
  import opened Tasks
  import opened Machine
  import opened Reaping
  import opened Transitions

  datatype Reply =
    | Ok
    | ErrNotFound
    | ErrNotOwner
    | ErrNotEditable
    | ErrNotDeletable
    | ErrNotRequeueable
    | ErrInvalidTransition
    | ErrInvalidInput
    | ErrEmptyPRURL

  lemma SingleRowUpdate(s: Db, e: Event)
    requires !e.Tick? && !e.Reap? && !e.Create? && !e.Delete? && e.task in s.rows
    ensures TouchAll(s, e) == s.rows[e.task := TouchOwn(s.now, e, s.rows[e.task])]
  {
  }

  /** Taking t off the work list adds it to what has been counted, if it is of the counted kind. */
  lemma CountOneMore(counted: set<TaskId>, todo: set<TaskId>, t: TaskId)
    requires t in todo
    ensures |counted - (todo - {t})| == |counted - todo| + (if t in counted then 1 else 0)
  {
    if t in counted {
      assert counted - (todo - {t}) == (counted - todo) + {t};
    } else {
      assert counted - (todo - {t}) == counted - todo;
    }
  }

  /** The CASE expressions that ReportResult and ReapStale share. */
  method FailAttempt(r: Task, error: string, now: Time) returns (r': Task)
    ensures r' == AttemptFailed(r, error, now)
    ensures r'.lastError == Some(error) && r'.attempts == r.attempts
    ensures r.attempts < r.maxAttempts ==>
              && r'.status == Pending && r'.scheduledFor == Some(now + r.attempts * 30_000_000)
              && r'.claimedBy == None && r'.claimedAt == None && r'.heartbeatAt == None
    ensures r.attempts >= r.maxAttempts ==>
              && r'.status == Failed && r'.scheduledFor == r.scheduledFor
              && r'.claimedBy == r.claimedBy && r'.claimedAt == r.claimedAt && r'.heartbeatAt == r.heartbeatAt
  {
    var spent := r.attempts >= r.maxAttempts;
    r' := r.(status := if spent then Failed else Pending,
             scheduledFor := if spent then r.scheduledFor else Some(now + r.attempts * 30 * SECOND),
             claimedBy := if spent then r.claimedBy else None,
             claimedAt := if spent then r.claimedAt else None,
             heartbeatAt := if spent then r.heartbeatAt else None,
             lastError := Some(error), updatedAt := now);
  }

  /** One row under the reaper's UPDATE, and whether its WHERE clause matches. */
  method ReapRow(r: Task, now: Time, v: Time) returns (r': Task, matched: bool)
    ensures matched <==> Stale(r, now, v)
    ensures r' == Reaped(r, now, v)
  {
    matched := r.status in {Claimed, InProgress} && r.heartbeatAt.Some? && r.heartbeatAt.value < now - v;
    r' := r;
    if matched {
      r' := FailAttempt(r, "lease expired", now);
    }
  }

  function FailedAmong(rows: map<TaskId, Task>, ids: set<TaskId>): set<TaskId>
    requires ids <= rows.Keys
  {
    set t | t in ids && rows[t].status.Failed?
  }

  lemma OneMoreReturned(rows: map<TaskId, Task>, returned: set<TaskId>, todo: set<TaskId>, t: TaskId)
    requires t in todo && todo <= returned && returned <= rows.Keys
    ensures |returned - (todo - {t})| == |returned - todo| + 1
    ensures |FailedAmong(rows, returned - (todo - {t}))|
            == |FailedAmong(rows, returned - todo)| + (if rows[t].status.Failed? then 1 else 0)
  {
    assert returned - (todo - {t}) == (returned - todo) + {t};
    OneMoreFailed(rows, returned - todo, t);
  }

  lemma OneMoreFailed(rows: map<TaskId, Task>, ids: set<TaskId>, t: TaskId)
    requires ids <= rows.Keys && t in rows && t !in ids
    ensures |FailedAmong(rows, ids + {t})| == |FailedAmong(rows, ids)| + (if rows[t].status.Failed? then 1 else 0)
  {
    if rows[t].status.Failed? {
      assert FailedAmong(rows, ids + {t}) == FailedAmong(rows, ids) + {t};
    } else {
      assert FailedAmong(rows, ids + {t}) == FailedAmong(rows, ids);
    }
  }

  /** The loop over the returned rows, counting by their new status. */
  method CountReturned(rows: map<TaskId, Task>, returned: set<TaskId>) returns (requeued: nat, failed: nat)
    requires returned <= rows.Keys
    ensures failed == |FailedAmong(rows, returned)|
    ensures requeued + failed == |returned|
  {
    requeued, failed := 0, 0;
    var todo := returned;
    assert returned - todo == {} && FailedAmong(rows, {}) == {};
    while todo != {}
      invariant todo <= returned
      invariant failed == |FailedAmong(rows, returned - todo)| && requeued + failed == |returned - todo|
    {
      var t :| t in todo;
      OneMoreReturned(rows, returned, todo, t);
      if rows[t].status == Failed {
        failed := failed + 1;
      } else {
        requeued := requeued + 1;
      }
      todo := todo - {t};
    }
    assert returned - {} == returned;
  }

  lemma SweptTable(s: Db, rows: map<TaskId, Task>, v: Time)
    requires rows.Keys == s.rows.Keys
    requires forall t :: t in rows ==> rows[t] == Reaped(s.rows[t], s.now, v)
    ensures rows == TouchAll(s, Reap(v))
    ensures FailedAmong(rows, StaleIds(s, v)) == ToFail(s, v)
  {
  }

  class Store {
    var rows: map<TaskId, Task>
    var logs: seq<LogEntry>
    var nextLog: nat
    var now: Time
    ghost var known: set<TaskId>
    ghost var run: Run

    ghost function Contents(): Db
      reads this
    {
      Db(rows, logs, nextLog, known, now)
    }

    ghost predicate Good()
      reads this
    {
      Machine.Valid(run) && run.states[|run.events|] == Contents()
    }

    constructor (start: Time)
      ensures Good() && Contents() == Empty(start) && run.events == []
    {
      rows, logs, nextLog, now, known := map[], [], 0, start, {};
      run := Run([Empty(start)], []);
    }

    /** The clock only moves forward. */
    method Advance(to: Time)
      requires Good() && now <= to
      modifies this
      ensures Good() && run == Extend(old(run), Tick(to))
    {
      now := to;
      run := Extend(run, Tick(to));
    }

    /** `id` is the UUID the database generates, so one never generated before. */
    method CreateTask(id: TaskId, input: NewTask) returns (reply: Reply)
      requires Good() && id !in known && id !in rows
      modifies this
      ensures Good()
      ensures reply == if Accepts(old(Contents()), Create(id, input)) then Ok else ErrInvalidInput
      ensures reply == Ok ==> run == Extend(old(run), Create(id, input))
      ensures reply == Ok ==>
                && id in rows && rows[id].name == input.name && rows[id].payload == input.payload
                && rows[id].priority == input.priority && rows[id].scheduledFor == input.scheduledFor
                && rows[id].jiraUrl == input.jiraUrl && rows[id].prUrl == input.prUrl
                && rows[id].status == Pending && rows[id].attempts == 0 && rows[id].createdAt == now
                && rows[id].maxAttempts == (if input.maxAttempts <= 0 then 3 else input.maxAttempts)
      ensures reply != Ok ==> Contents() == old(Contents()) && run == old(run)
    {
      if !input.payloadOk {
        return ErrInvalidInput;
      }
      var maxAttempts := input.maxAttempts;
      if maxAttempts <= 0 {
        maxAttempts := 3;
      }
      rows := rows[id := Task(input.name, input.payload, input.priority, Pending, input.scheduledFor,
                              0, maxAttempts, None, None, None, None, None, None,
                              input.jiraUrl, input.prUrl, now, now)];
      known := known + {id};
      run := Extend(run, Create(id, input));
      return Ok;
    }

    /** Hands out an eligible pending row that no other eligible row sorts before; nothing, and no
        write, if and only if there is no eligible row. */
    method ClaimTask(w: WorkerId) returns (claimed: Option<TaskId>)
      requires Good()
      modifies this
      ensures Good()
      ensures claimed.Some? ==> Accepts(old(Contents()), Claim(w, claimed.value))
                                && run == Extend(old(run), Claim(w, claimed.value))
      ensures claimed.Some? ==>
                && claimed.value in old(rows) && claimed.value in rows
                && forall u :: u in old(rows) && old(rows)[u].status == Pending
                               && (old(rows)[u].scheduledFor.Some? ==> old(rows)[u].scheduledFor.value <= now) ==>
                     || old(rows)[u].priority < old(rows)[claimed.value].priority
                     || (old(rows)[u].priority == old(rows)[claimed.value].priority
                         && old(rows)[claimed.value].createdAt <= old(rows)[u].createdAt)
      ensures claimed.None? ==> (forall t :: t in rows ==> !Eligible(rows[t], now))
                                && Contents() == old(Contents()) && run == old(run)
    {
      claimed := None;
      var todo := rows.Keys;
      while todo != {}
        invariant todo <= rows.Keys && Contents() == old(Contents()) && run == old(run)
        invariant claimed.None? ==> forall u :: u in rows && u !in todo ==> !Eligible(rows[u], now)
        invariant claimed.Some? ==> claimed.value in rows && Eligible(rows[claimed.value], now)
        invariant claimed.Some? ==> forall u :: u in rows && u !in todo && Eligible(rows[u], now) ==>
                                                  !Before(rows[u], rows[claimed.value])
      {
        var t :| t in todo;
        todo := todo - {t};
        if rows[t].status == Pending
           && (rows[t].scheduledFor.None? || rows[t].scheduledFor.value <= now)
           && (claimed.None? || Before(rows[t], rows[claimed.value])) {
          claimed := Some(t);
        }
      }
      if claimed.Some? {
        var t := claimed.value;
        rows := rows[t := rows[t].(status := Claimed, claimedBy := Some(w), claimedAt := Some(now),
                                   heartbeatAt := Some(now), note := None, updatedAt := now,
                                   attempts := rows[t].attempts + 1)];
        SingleRowUpdate(old(Contents()), Claim(w, t));
        run := Extend(run, Claim(w, t));
      }
    }

    method Heartbeat(w: WorkerId, t: TaskId) returns (reply: Reply)
      requires Good()
      modifies this
      ensures Good()
      ensures reply == if Accepts(old(Contents()), Event.Heartbeat(w, t)) then Ok else ErrNotOwner
      ensures reply == Ok ==> run == Extend(old(run), Event.Heartbeat(w, t))
      ensures reply != Ok ==> Contents() == old(Contents()) && run == old(run)
    {
      if t in rows && rows[t].claimedBy == Some(w) && rows[t].status in {Claimed, InProgress} {
        rows := rows[t := rows[t].(heartbeatAt := Some(now), updatedAt := now,
                                   status := if rows[t].status == Claimed then InProgress else rows[t].status)];
        SingleRowUpdate(old(Contents()), Event.Heartbeat(w, t));
        run := Extend(run, Event.Heartbeat(w, t));
        return Ok;
      }
      return ErrNotOwner;
    }

    method UpdateProgress(w: WorkerId, t: TaskId, note: string) returns (reply: Reply)
      requires Good()
      modifies this
      ensures Good()
      ensures reply == if Accepts(old(Contents()), Progress(w, t, note)) then Ok else ErrNotOwner
      ensures reply == Ok ==> run == Extend(old(run), Progress(w, t, note))
      ensures reply != Ok ==> Contents() == old(Contents()) && run == old(run)
    {
      var notePtr := if note != "" then Some(note) else None;
      if t in rows && rows[t].claimedBy == Some(w) && rows[t].status in {Claimed, InProgress} {
        rows := rows[t := rows[t].(note := notePtr, heartbeatAt := Some(now), updatedAt := now,
                                   status := if rows[t].status == Claimed then InProgress else rows[t].status)];
        SingleRowUpdate(old(Contents()), Progress(w, t, note));
        run := Extend(run, Progress(w, t, note));
        return Ok;
      }
      return ErrNotOwner;
    }

    /** The three statements run as one step; module SplitLog takes them apart. */
    method AppendTaskLog(w: WorkerId, t: TaskId, message: string) returns (reply: Reply, entry: Option<LogEntry>)
      requires Good()
      modifies this
      ensures Good()
      ensures reply == if t !in old(rows) then ErrNotFound
                       else if Accepts(old(Contents()), AppendLog(w, t, message)) then Ok else ErrNotOwner
      ensures reply == Ok ==> run == Extend(old(run), AppendLog(w, t, message))
                              && |logs| > 0 && entry == Some(logs[|logs| - 1])
      ensures reply != Ok ==> Contents() == old(Contents()) && run == old(run) && entry == None
    {
      entry := None;
      if t !in rows {
        return ErrNotFound, None;
      }
      if rows[t].claimedBy != Some(w) || !(rows[t].status in {Claimed, InProgress}) {
        return ErrNotOwner, None;
      }
      var e := LogEntry(nextLog, t, message, now);
      logs, nextLog := logs + [e], nextLog + 1;
      rows := rows[t := rows[t].(heartbeatAt := Some(now), updatedAt := now,
                                 status := if rows[t].status == Claimed then InProgress else rows[t].status)];
      SingleRowUpdate(old(Contents()), AppendLog(w, t, message));
      run := Extend(run, AppendLog(w, t, message));
      return Ok, Some(e);
    }

    method SetJiraURL(w: WorkerId, t: TaskId, url: string) returns (reply: Reply)
      requires Good()
      modifies this
      ensures Good()
      ensures reply == if Accepts(old(Contents()), SetJira(w, t, url)) then Ok else ErrNotOwner
      ensures reply == Ok ==> run == Extend(old(run), SetJira(w, t, url))
      ensures reply != Ok ==> Contents() == old(Contents()) && run == old(run)
    {
      var states := AllowedFromStrings(Worker, "set_jira_url");
      var urlPtr := if url != "" then Some(url) else None;
      if t in rows && rows[t].claimedBy == Some(w) && StatusName(rows[t].status) in states {
        rows := rows[t := rows[t].(jiraUrl := urlPtr, heartbeatAt := Some(now), updatedAt := now)];
        SingleRowUpdate(old(Contents()), SetJira(w, t, url));
        run := Extend(run, SetJira(w, t, url));
        return Ok;
      }
      return ErrNotOwner;
    }

    method OpenPR(w: WorkerId, t: TaskId, url: string) returns (reply: Reply)
      requires Good()
      modifies this
      ensures Good()
      ensures reply == if url == "" then ErrEmptyPRURL
                       else if Accepts(old(Contents()), Event.OpenPR(w, t, url)) then Ok else ErrNotOwner
      ensures reply == Ok ==> run == Extend(old(run), Event.OpenPR(w, t, url))
      ensures reply != Ok ==> Contents() == old(Contents()) && run == old(run)
    {
      if url == "" {
        return ErrEmptyPRURL;
      }
      var states := AllowedFromStrings(Worker, "open_pr");
      if t in rows && rows[t].claimedBy == Some(w) && StatusName(rows[t].status) in states {
        rows := rows[t := rows[t].(status := PROpened, prUrl := Some(url), claimedBy := None,
                                   claimedAt := None, heartbeatAt := None, updatedAt := now)];
        SingleRowUpdate(old(Contents()), Event.OpenPR(w, t, url));
        run := Extend(run, Event.OpenPR(w, t, url));
        return Ok;
      }
      return ErrNotOwner;
    }

    /** `terminal` is true exactly when this call moved the task to failed. */
    method ReportResult(w: WorkerId, t: TaskId, success: bool, error: string) returns (terminal: bool, reply: Reply)
      requires Good()
      modifies this
      ensures Good()
      ensures reply == if Owns(old(Contents()), w, t) then Ok else ErrNotOwner
      ensures reply == Ok ==> run == Extend(old(run), if success then ReportSuccess(w, t)
                                                      else ReportFailure(w, t, error))
      ensures reply != Ok ==> Contents() == old(Contents()) && run == old(run)
      ensures terminal <==> reply == Ok && t in rows && rows[t].status == Failed
      ensures reply == Ok ==>
                && t in old(rows) && t in rows
                && var r, r' := old(rows)[t], rows[t];
                   if success then r'.status == Completed && r'.completedAt == Some(now) && r'.lastError == None
                   else if r.attempts < r.maxAttempts then
                     && r'.status == Pending && r'.scheduledFor == Some(now + r.attempts * 30_000_000)
                     && r'.lastError == Some(error) && r'.claimedBy == None
                   else r'.status == Failed && r'.scheduledFor == r.scheduledFor && r'.lastError == Some(error)
    {
      if !(t in rows && rows[t].claimedBy == Some(w) && rows[t].status in {Claimed, InProgress}) {
        return false, ErrNotOwner;
      }
      var r := rows[t];
      if success {
        rows := rows[t := r.(status := Completed, completedAt := Some(now), lastError := None, updatedAt := now)];
        SingleRowUpdate(old(Contents()), ReportSuccess(w, t));
        run := Extend(run, ReportSuccess(w, t));
        return false, Ok;
      }
      var r' := FailAttempt(r, error, now);
      rows := rows[t := r'];
      SingleRowUpdate(old(Contents()), ReportFailure(w, t, error));
      run := Extend(run, ReportFailure(w, t, error));
      return rows[t].status == Failed, Ok;
    }

    /** The reaper's UPDATE ... RETURNING: every stale row fails its attempt, and is returned. */
    method SweepStale(visibility: Time) returns (returned: set<TaskId>)
      modifies this`rows
      ensures returned == StaleIds(old(Contents()), visibility)
      ensures rows.Keys == old(rows).Keys
      ensures forall t :: t in rows ==> rows[t] == Reaped(old(rows)[t], now, visibility)
    {
      returned := {};
      var todo := rows.Keys;
      while todo != {}
        invariant todo <= rows.Keys == old(rows).Keys
        invariant forall t :: t in todo ==> rows[t] == old(rows)[t]
        invariant forall t :: t in rows && t !in todo ==> rows[t] == Reaped(old(rows)[t], now, visibility)
        invariant returned == StaleIds(old(Contents()), visibility) - todo
      {
        var t :| t in todo;
        var r', matched := ReapRow(rows[t], now, visibility);
        if matched {
          rows := rows[t := r'];
          returned := returned + {t};
        }
        todo := todo - {t};
      }
    }

    /** Fails every stale row, counts where each one went, and leaves nothing stale. */
    method ReapStale(visibility: Time) returns (requeued: nat, failed: nat)
      requires Good()
      modifies this
      ensures Good() && run == Extend(old(run), Reap(visibility))
      ensures requeued == |ToRequeue(old(Contents()), visibility)|
      ensures failed == |ToFail(old(Contents()), visibility)|
      ensures StaleIds(Contents(), visibility) == {}
    {
      ghost var s := Contents();
      ReapIsComplete(s, visibility);
      StaleSplits(s, visibility);
      var returned := SweepStale(visibility);
      SweptTable(s, rows, visibility);
      requeued, failed := CountReturned(rows, returned);
      run := Extend(run, Reap(visibility));
    }

    /** Counts exactly the pending rows. */
    method CountPending() returns (n: nat)
      ensures n == |WithStatus(rows, Pending)|
    {
      n := 0;
      var todo := rows.Keys;
      while todo != {}
        invariant todo <= rows.Keys
        invariant n == |WithStatus(rows, Pending) - todo|
      {
        var t :| t in todo;
        CountOneMore(WithStatus(rows, Pending), todo, t);
        if rows[t].status == Pending {
          n := n + 1;
        }
        todo := todo - {t};
      }
      assert WithStatus(rows, Pending) - {} == WithStatus(rows, Pending);
    }

    method RequestReview(t: TaskId) returns (reply: Reply)
      requires Good()
      modifies this
      ensures Good()
      ensures reply == if Accepts(old(Contents()), Event.RequestReview(t)) then Ok
                       else if t !in old(rows) then ErrNotFound else ErrInvalidTransition
      ensures reply == Ok ==> run == Extend(old(run), Event.RequestReview(t))
      ensures reply != Ok ==> Contents() == old(Contents()) && run == old(run)
    {
      var states := AllowedFromStrings(Admin, "request_review");
      if t in rows && StatusName(rows[t].status) in states {
        rows := rows[t := rows[t].(status := ReviewRequested, updatedAt := now)];
        SingleRowUpdate(old(Contents()), Event.RequestReview(t));
        run := Extend(run, Event.RequestReview(t));
        return Ok;
      }
      return if t !in rows then ErrNotFound else ErrInvalidTransition;
    }

    method FinalizeTask(t: TaskId, success: bool, error: string) returns (reply: Reply)
      requires Good()
      modifies this
      ensures Good()
      ensures reply == if Accepts(old(Contents()), Finalize(t, success, error)) then Ok
                       else if t !in old(rows) then ErrNotFound else ErrInvalidTransition
      ensures reply == Ok ==> run == Extend(old(run), Finalize(t, success, error))
      ensures reply != Ok ==> Contents() == old(Contents()) && run == old(run)
    {
      var states := AllowedFromStrings(Admin, "finalize");
      var target, errPtr := Completed, None;
      if !success {
        target := Failed;
        if error != "" {
          errPtr := Some(error);
        }
      }
      if t in rows && StatusName(rows[t].status) in states {
        rows := rows[t := rows[t].(status := target,
                                   completedAt := if target == Completed then Some(now) else rows[t].completedAt,
                                   lastError := if errPtr.Some? then errPtr else rows[t].lastError,
                                   updatedAt := now)];
        SingleRowUpdate(old(Contents()), Finalize(t, success, error));
        run := Extend(run, Finalize(t, success, error));
        return Ok;
      }
      return if t !in rows then ErrNotFound else ErrInvalidTransition;
    }

    method UpdateTask(t: TaskId, edit: Edit) returns (reply: Reply)
      requires Good()
      modifies this
      ensures Good()
      ensures reply == if Accepts(old(Contents()), Update(t, edit)) then Ok
                       else if t !in old(rows) then ErrNotFound else ErrNotEditable
      ensures reply == Ok ==> run == Extend(old(run), Update(t, edit))
      ensures reply != Ok ==> Contents() == old(Contents()) && run == old(run)
    {
      if t in rows && rows[t].status == Pending {
        rows := rows[t := rows[t].(name := edit.name, priority := edit.priority,
                                   maxAttempts := edit.maxAttempts, scheduledFor := edit.scheduledFor,
                                   payload := if edit.payload.None? then rows[t].payload else edit.payload.value,
                                   jiraUrl := edit.jiraUrl, prUrl := edit.prUrl, updatedAt := now)];
        SingleRowUpdate(old(Contents()), Update(t, edit));
        run := Extend(run, Update(t, edit));
        return Ok;
      }
      return if t !in rows then ErrNotFound else ErrNotEditable;
    }

    method UpdateTaskLinks(t: TaskId, jira: Option<string>, pr: Option<string>) returns (reply: Reply)
      requires Good()
      modifies this
      ensures Good()
      ensures reply == if t in old(rows) then Ok else ErrNotFound
      ensures reply == Ok ==> run == Extend(old(run), UpdateLinks(t, jira, pr))
      ensures reply != Ok ==> Contents() == old(Contents()) && run == old(run)
    {
      if t in rows {
        rows := rows[t := rows[t].(jiraUrl := jira, prUrl := pr, updatedAt := now)];
        SingleRowUpdate(old(Contents()), UpdateLinks(t, jira, pr));
        run := Extend(run, UpdateLinks(t, jira, pr));
        return Ok;
      }
      return ErrNotFound;
    }

    /** Deleting a task takes its log lines with it (ON DELETE CASCADE). */
    method DeleteTask(t: TaskId) returns (reply: Reply)
      requires Good()
      modifies this
      ensures Good()
      ensures reply == if Accepts(old(Contents()), Delete(t)) then Ok
                       else if t !in old(rows) then ErrNotFound else ErrNotDeletable
      ensures reply == Ok ==> run == Extend(old(run), Delete(t))
      ensures reply != Ok ==> Contents() == old(Contents()) && run == old(run)
    {
      if t in rows && rows[t].status in {Pending, Completed, Failed} {
        rows := rows - {t};
        logs := WithoutTask(logs, t);
        run := Extend(run, Delete(t));
        return Ok;
      }
      return if t !in rows then ErrNotFound else ErrNotDeletable;
    }

    method RequeueTask(t: TaskId) returns (reply: Reply)
      requires Good()
      modifies this
      ensures Good()
      ensures reply == if Accepts(old(Contents()), Requeue(t)) then Ok
                       else if t !in old(rows) then ErrNotFound else ErrNotRequeueable
      ensures reply == Ok ==> run == Extend(old(run), Requeue(t))
      ensures reply != Ok ==> Contents() == old(Contents()) && run == old(run)
    {
      if t in rows && rows[t].status in {Pending, Completed, Failed} {
        rows := rows[t := rows[t].(status := Pending, claimedBy := None, claimedAt := None,
                                   heartbeatAt := None, completedAt := None, lastError := None,
                                   note := None, prUrl := None, attempts := 0,
                                   scheduledFor := None, updatedAt := now)];
        SingleRowUpdate(old(Contents()), Requeue(t));
        run := Extend(run, Requeue(t));
        return Ok;
      }
      return if t !in rows then ErrNotFound else ErrNotRequeueable;
    }
  }
}
