// The list of workers, which is nothing but the tasks table grouped by owner: one pass over the
// table, one query for a single worker, and the history, which the list does not remember.

module Workers {
  import opened Tasks
  import opened Machine
  import opened Invariants
  import opened Leases
  import opened Views

  datatype WorkerInfo = WorkerInfo(id: WorkerId, active: nat, completed: nat, failed: nat, lastSeen: Option<Time>)

  datatype Column = ActiveTasks | CompletedTasks | FailedTasks

  /** The FILTER of a column. */
  predicate Counts(c: Column, r: Task) {
    match c
    case ActiveTasks => Active(r)
    case CompletedTasks => r.status.Completed?
    case FailedTasks => r.status.Failed?
  }

  function Cell(info: WorkerInfo, c: Column): nat {
    match c
    case ActiveTasks => info.active
    case CompletedTasks => info.completed
    case FailedTasks => info.failed
  }

  /** COALESCE(last_heartbeat_at, claimed_at, completed_at) */
  function SeenAt(r: Task): Option<Time> {
    if r.heartbeatAt.Some? then r.heartbeatAt
    else if r.claimedAt.Some? then r.claimedAt
    else r.completedAt
  }

  /** MAX ignores NULLs, and is NULL if there is nothing else. */
  ghost predicate Latest(rows: map<TaskId, Task>, ids: set<TaskId>, m: Option<Time>)
    requires ids <= rows.Keys
  {
    && (forall t :: t in ids && SeenAt(rows[t]).Some? ==> m.Some? && SeenAt(rows[t]).value <= m.value)
    && (m.Some? ==> exists t :: t in ids && SeenAt(rows[t]) == m)
  }

  function Counted(rows: map<TaskId, Task>, ids: set<TaskId>, c: Column): set<TaskId>
    requires ids <= rows.Keys
  {
    set t | t in ids && Counts(c, rows[t])
  }

  /** The line of w, were these the rows of w. */
  ghost predicate Summarises(rows: map<TaskId, Task>, ids: set<TaskId>, w: WorkerId, info: WorkerInfo)
    requires ids <= rows.Keys
  {
    && info.id == w
    && (forall c :: Cell(info, c) == |Counted(rows, ids, c)|)
    && Latest(rows, ids, info.lastSeen)
  }

  // ---- the two queries ----

  function Later(a: Option<Time>, b: Option<Time>): Option<Time> {
    if a.None? || (b.Some? && a.value < b.value) then b else a
  }

  /** One more row of the group goes into the line. */
  function Add(info: WorkerInfo, r: Task): WorkerInfo {
    info.(active := info.active + (if Active(r) then 1 else 0),
          completed := info.completed + (if r.status.Completed? then 1 else 0),
          failed := info.failed + (if r.status.Failed? then 1 else 0),
          lastSeen := Later(info.lastSeen, SeenAt(r)))
  }

  function NoRows(w: WorkerId): WorkerInfo {
    WorkerInfo(w, 0, 0, 0, None)
  }

  lemma NoRowsYet(rows: map<TaskId, Task>, w: WorkerId)
    ensures Summarises(rows, {}, w, NoRows(w))
  {
    assert forall c :: Counted(rows, {}, c) == {};
  }

  lemma AddOneRow(rows: map<TaskId, Task>, ids: set<TaskId>, t: TaskId, w: WorkerId, info: WorkerInfo)
    requires t in rows && ids <= rows.Keys && t !in ids && Summarises(rows, ids, w, info)
    ensures Summarises(rows, ids + {t}, w, Add(info, rows[t]))
  {
    forall c
      ensures Cell(Add(info, rows[t]), c) == |Counted(rows, ids + {t}, c)|
    {
      assert Cell(info, c) == |Counted(rows, ids, c)|;
      CountOneRow(rows, ids, t, c);
      AddToCell(info, rows[t], c);
    }
    AddOneTime(rows, ids, t, info.lastSeen);
  }

  lemma CountOneRow(rows: map<TaskId, Task>, ids: set<TaskId>, t: TaskId, c: Column)
    requires t in rows && ids <= rows.Keys && t !in ids
    ensures |Counted(rows, ids + {t}, c)| == |Counted(rows, ids, c)| + (if Counts(c, rows[t]) then 1 else 0)
  {
    if Counts(c, rows[t]) {
      assert Counted(rows, ids + {t}, c) == Counted(rows, ids, c) + {t};
    } else {
      assert Counted(rows, ids + {t}, c) == Counted(rows, ids, c);
    }
  }

  lemma AddToCell(info: WorkerInfo, r: Task, c: Column)
    ensures Cell(Add(info, r), c) == Cell(info, c) + (if Counts(c, r) then 1 else 0)
    ensures Add(info, r).id == info.id && Add(info, r).lastSeen == Later(info.lastSeen, SeenAt(r))
  {
  }

  lemma AddOneTime(rows: map<TaskId, Task>, ids: set<TaskId>, t: TaskId, m: Option<Time>)
    requires t in rows && ids <= rows.Keys && Latest(rows, ids, m)
    ensures Latest(rows, ids + {t}, Later(m, SeenAt(rows[t])))
  {
    if m.Some? {
      var u :| u in ids && SeenAt(rows[u]) == m;
      assert u in ids + {t};
    }
    assert t in ids + {t};
  }

  /** One line for every owner there is, summing up the rows that name it. */
  ghost predicate IsList(rows: map<TaskId, Task>, list: map<WorkerId, WorkerInfo>) {
    && (forall w :: w in list <==> Group(rows, w) != {})
    && (forall w :: w in list ==> Summarises(rows, Group(rows, w), w, list[w]))
  }

  /** The group of w as far as it has been read. */
  function Read(rows: map<TaskId, Task>, todo: set<TaskId>, w: WorkerId): set<TaskId> {
    Group(rows, w) - todo
  }

  lemma ReadOne(rows: map<TaskId, Task>, todo: set<TaskId>, t: TaskId, w: WorkerId)
    requires t in todo && t in rows
    ensures Read(rows, todo - {t}, w) == if rows[t].claimedBy == Some(w) then Read(rows, todo, w) + {t}
                                         else Read(rows, todo, w)
  {
  }

  ghost predicate LineSoFar(rows: map<TaskId, Task>, todo: set<TaskId>, w: WorkerId, line: Option<WorkerInfo>) {
    && (line.None? <==> Read(rows, todo, w) == {})
    && (line.Some? ==> Summarises(rows, Read(rows, todo, w), w, line.value))
  }

  function Line(list: map<WorkerId, WorkerInfo>, w: WorkerId): Option<WorkerInfo> {
    if w in list then Some(list[w]) else None
  }

  lemma NextRow(rows: map<TaskId, Task>, todo: set<TaskId>, t: TaskId, w: WorkerId, line: Option<WorkerInfo>)
    requires t in todo && todo <= rows.Keys && LineSoFar(rows, todo, w, line)
    ensures rows[t].claimedBy != Some(w) ==> LineSoFar(rows, todo - {t}, w, line)
    ensures rows[t].claimedBy == Some(w) ==>
              LineSoFar(rows, todo - {t}, w, Some(Add(if line.Some? then line.value else NoRows(w), rows[t])))
  {
    ReadOne(rows, todo, t, w);
    NoRowsYet(rows, w);
    if rows[t].claimedBy == Some(w) {
      AddOneRow(rows, Read(rows, todo, w), t, w, if line.Some? then line.value else NoRows(w));
    }
  }

  /** ListWorkers: GROUP BY claimed_by in one pass over the table. */
  method ListWorkers(rows: map<TaskId, Task>) returns (list: map<WorkerId, WorkerInfo>)
    ensures IsList(rows, list)
  {
    list := map[];
    var todo := rows.Keys;
    while todo != {}
      invariant todo <= rows.Keys
      invariant forall w :: LineSoFar(rows, todo, w, Line(list, w))
    {
      var t :| t in todo;
      forall w {
        NextRow(rows, todo, t, w, Line(list, w));
      }
      if rows[t].claimedBy.Some? {
        var w := rows[t].claimedBy.value;
        list := list[w := Add(if w in list then list[w] else NoRows(w), rows[t])];
      }
      todo := todo - {t};
    }
    AllRead(rows, list);
  }

  lemma AllRead(rows: map<TaskId, Task>, list: map<WorkerId, WorkerInfo>)
    requires forall w :: LineSoFar(rows, {}, w, Line(list, w))
    ensures IsList(rows, list)
  {
    forall w
      ensures w in list <==> Group(rows, w) != {}
      ensures w in list ==> Summarises(rows, Group(rows, w), w, list[w])
    {
      assert LineSoFar(rows, {}, w, Line(list, w));
      assert Read(rows, {}, w) == Group(rows, w);
    }
  }

  /** workerInfo: the same aggregation over the rows of one worker; no rows, no worker. */
  method GetWorkerInfo(rows: map<TaskId, Task>, w: WorkerId) returns (info: Option<WorkerInfo>)
    ensures info.None? <==> Group(rows, w) == {}
    ensures info.Some? ==> Summarises(rows, Group(rows, w), w, info.value)
  {
    info := None;
    var todo := rows.Keys;
    while todo != {}
      invariant todo <= rows.Keys
      invariant LineSoFar(rows, todo, w, info)
    {
      var t :| t in todo;
      NextRow(rows, todo, t, w, info);
      if rows[t].claimedBy == Some(w) {
        info := Some(Add(if info.Some? then info.value else NoRows(w), rows[t]));
      }
      todo := todo - {t};
    }
    assert Read(rows, {}, w) == Group(rows, w);
  }

  /** The agent page and the list show the same line for a worker, or neither shows one. */
  lemma InfoIsItsLine(rows: map<TaskId, Task>, list: map<WorkerId, WorkerInfo>, w: WorkerId, info: Option<WorkerInfo>)
    requires IsList(rows, list)
    requires info.None? <==> Group(rows, w) == {}
    requires info.Some? ==> Summarises(rows, Group(rows, w), w, info.value)
    ensures info == if w in list then Some(list[w]) else None
  {
    if w in list {
      var a, b := info.value, list[w];
      assert Cell(a, ActiveTasks) == Cell(b, ActiveTasks) && Cell(a, CompletedTasks) == Cell(b, CompletedTasks);
      assert Cell(a, FailedTasks) == Cell(b, FailedTasks);
    }
  }

  /** A line on the statuses themselves. */
  lemma LineOnStatuses(rows: map<TaskId, Task>, list: map<WorkerId, WorkerInfo>, w: WorkerId)
    requires IsList(rows, list) && w in list
    ensures list[w].id == w
    ensures list[w].active
            == |set t | t in rows && rows[t].claimedBy == Some(w) && rows[t].status in {Claimed, InProgress}|
    ensures list[w].completed == |set t | t in rows && rows[t].claimedBy == Some(w) && rows[t].status == Completed|
    ensures list[w].failed == |set t | t in rows && rows[t].claimedBy == Some(w) && rows[t].status == Failed|
  {
    var g := Group(rows, w);
    assert list[w].active == Cell(list[w], ActiveTasks) == |Counted(rows, g, ActiveTasks)|;
    assert list[w].completed == Cell(list[w], CompletedTasks) == |Counted(rows, g, CompletedTasks)|;
    assert list[w].failed == Cell(list[w], FailedTasks) == |Counted(rows, g, FailedTasks)|;
    assert Counted(rows, g, ActiveTasks)
        == set t | t in rows && rows[t].claimedBy == Some(w) && rows[t].status in {Claimed, InProgress};
    assert Counted(rows, g, CompletedTasks)
        == set t | t in rows && rows[t].claimedBy == Some(w) && rows[t].status == Completed;
    assert Counted(rows, g, FailedTasks)
        == set t | t in rows && rows[t].claimedBy == Some(w) && rows[t].status == Failed;
  }

  // ---- the columns add up ----

  ghost function Total(list: map<WorkerId, WorkerInfo>, ws: set<WorkerId>, c: Column): nat
    requires ws <= list.Keys
  {
    if ws == {} then 0
    else var w :| w in ws; Cell(list[w], c) + Total(list, ws - {w}, c)
  }

  function Among(rows: map<TaskId, Task>, ws: set<WorkerId>, c: Column): set<TaskId> {
    set t | t in rows && rows[t].claimedBy.Some? && rows[t].claimedBy.value in ws && Counts(c, rows[t])
  }

  lemma SplitOff(rows: map<TaskId, Task>, list: map<WorkerId, WorkerInfo>, ws: set<WorkerId>, w: WorkerId, c: Column)
    requires w in ws && w in list && IsList(rows, list)
    ensures |Among(rows, ws, c)| == Cell(list[w], c) + |Among(rows, ws - {w}, c)|
  {
    assert Summarises(rows, Group(rows, w), w, list[w]);
    assert Among(rows, ws, c) == Counted(rows, Group(rows, w), c) + Among(rows, ws - {w}, c);
    assert Counted(rows, Group(rows, w), c) !! Among(rows, ws - {w}, c);
  }

  lemma {:induction false} TotalCounts(rows: map<TaskId, Task>, list: map<WorkerId, WorkerInfo>, ws: set<WorkerId>,
      c: Column)
    requires IsList(rows, list) && ws <= list.Keys
    ensures Total(list, ws, c) == |Among(rows, ws, c)|
    decreases |ws|
  {
    if ws == {} {
      assert Among(rows, ws, c) == {};
    } else {
      var w :| w in ws && Total(list, ws, c) == Cell(list[w], c) + Total(list, ws - {w}, c);
      TotalCounts(rows, list, ws - {w}, c);
      SplitOff(rows, list, ws, w, c);
    }
  }

  function UnderOwner(rows: map<TaskId, Task>, c: Column): set<TaskId> {
    set t | t in rows && rows[t].claimedBy.Some? && Counts(c, rows[t])
  }

  /** In every reachable table each column of the list adds up to the number of rows of its kind
      under an owner, none without a line and none twice; every active row is among them. */
  lemma WorkerCountsAddUp(run: Run, k: nat, list: map<WorkerId, WorkerInfo>, c: Column)
    requires Valid(run) && k <= |run.events| && IsList(run.states[k].rows, list)
    ensures Total(list, list.Keys, c) == |UnderOwner(run.states[k].rows, c)|
    ensures c.ActiveTasks? ==> Total(list, list.Keys, c) == |ActiveIds(run.states[k])|
  {
    var rows := run.states[k].rows;
    ReachableInv(run, k);
    TotalCounts(rows, list, list.Keys, c);
    forall t | t in rows && rows[t].claimedBy.Some?
      ensures rows[t].claimedBy.value in list
    {
      assert t in Group(rows, rows[t].claimedBy.value);
    }
    assert Among(rows, list.Keys, c) == UnderOwner(rows, c);
    if c.ActiveTasks? {
      assert Among(rows, list.Keys, c) == ActiveIds(run.states[k]);
    }
  }

  /** In every reachable table the last-seen time of a worker is the latest heartbeat among its rows:
      the two fallbacks of the COALESCE are never taken, and no line is without a time. */
  lemma LastSeenIsHeartbeat(run: Run, k: nat, list: map<WorkerId, WorkerInfo>, w: WorkerId)
    requires Valid(run) && k <= |run.events| && IsList(run.states[k].rows, list) && w in list
    ensures var rows := run.states[k].rows;
            && list[w].lastSeen.Some?
            && (exists t :: t in Group(rows, w) && rows[t].heartbeatAt == list[w].lastSeen)
            && (forall t :: t in Group(rows, w) ==>
                  rows[t].heartbeatAt.Some? && rows[t].heartbeatAt.value <= list[w].lastSeen.value)
  {
    var rows := run.states[k].rows;
    ReachableInv(run, k);
    forall t | t in Group(rows, w)
      ensures rows[t].heartbeatAt.Some? && SeenAt(rows[t]) == rows[t].heartbeatAt
    {
      assert RowInv(rows[t], run.states[k].now);
    }
    var t :| t in Group(rows, w);
  }

  // ---- what the list remembers ----

  /** Accepted calls that take the owner off the row of t, or the row off the table. */
  predicate Disowns(s: Db, e: Event, t: TaskId) {
    || ((e.OpenPR? || e.Requeue? || e.Delete?) && e.task == t)
    || (e.ReportFailure? && e.task == t && t in s.rows && !Exhausted(s.rows[t]))
    || (ReapsRow(s, e, t) && !Exhausted(s.rows[t]))
  }

  lemma TouchOnOwner(s: Db, e: Event, t: TaskId)
    requires t in s.rows && Accepts(s, e) && e != Delete(t) && ColumnsAgree(s.rows[t])
    ensures Touch(s.now, e, t, s.rows[t]).claimedBy ==
            if Claims(e, t) then Some(e.worker) else if Disowns(s, e, t) then None else s.rows[t].claimedBy
    ensures Claims(e, t) ==> s.rows[t].claimedBy.None?
  {
  }

  lemma OwnerStep(s: Db, e: Event, s': Db, t: TaskId, w: WorkerId)
    requires Step(s, e, s') && DbInv(s)
    ensures t in Group(s'.rows, w) <==> e == Claim(w, t) || (t in Group(s.rows, w) && !Disowns(s, e, t))
    ensures e == Claim(w, t) ==> !Disowns(s, e, t)
  {
    RowComesOrGoes(s, e, s', t);
    if t in s.rows && t in s'.rows {
      RowAfter(s, e, s', t);
      TouchOnOwner(s, e, t);
    }
  }

  /** A row names a worker exactly if a claim of it by that worker has not been disowned since. */
  lemma {:induction false} OwnerIsHistory(run: Run, k: nat, t: TaskId, w: WorkerId)
    requires Valid(run) && k <= |run.events|
    ensures t in Group(run.states[k].rows, w) <==>
            exists i :: 0 <= i < k && run.events[i] == Claim(w, t)
                        && forall j :: i < j < k ==> !Disowns(run.states[j], run.events[j], t)
  {
    if k > 0 {
      OwnerIsHistory(run, k - 1, t, w);
      ReachableInv(run, k - 1);
      assert StepAt(run, k - 1);
      OwnerStep(run.states[k - 1], run.events[k - 1], run.states[k], t, w);
      if t in Group(run.states[k - 1].rows, w) && !Disowns(run.states[k - 1], run.events[k - 1], t) {
        var i :| 0 <= i < k - 1 && run.events[i] == Claim(w, t)
                 && forall j :: i < j < k - 1 ==> !Disowns(run.states[j], run.events[j], t);
        assert 0 <= i < k && forall j :: i < j < k ==> !Disowns(run.states[j], run.events[j], t);
      }
    }
  }

  /** A worker has a line, and an agent page, if and only if one of its claims has not been disowned
      since: having claimed a task at some point is not enough. */
  lemma ListedIff(run: Run, k: nat, list: map<WorkerId, WorkerInfo>, w: WorkerId)
    requires Valid(run) && k <= |run.events| && IsList(run.states[k].rows, list)
    ensures w in list <==>
            exists i :: 0 <= i < k && run.events[i].Claim? && run.events[i].worker == w
                        && forall j :: i < j < k ==> !Disowns(run.states[j], run.events[j], run.events[i].task)
  {
    if w in list {
      var t :| t in Group(run.states[k].rows, w);
      OwnerIsHistory(run, k, t, w);
    }
    if i :| 0 <= i < k && run.events[i].Claim? && run.events[i].worker == w
            && forall j :: i < j < k ==> !Disowns(run.states[j], run.events[j], run.events[i].task) {
      OwnerIsHistory(run, k, run.events[i].task, w);
      assert run.events[i] == Claim(w, run.events[i].task);
      assert run.events[i].task in Group(run.states[k].rows, w);
    }
  }

  /** A worker that has claimed a task and failed it once is in no list. */
  lemma ForgottenWorker() returns (run: Run)
    ensures Valid(run) && |run.events| == 3
    ensures run.events[1] == Claim("w", 7) && run.events[2] == ReportFailure("w", 7, "boom")
    ensures forall list :: IsList(run.states[3].rows, list) ==> "w" !in list
  {
    run := Run([Empty(0)], []);
    run := Extend(run, Create(7, NewTask("n", "p", true, 0, 3, None, None, None)));
    run := Extend(run, Claim("w", 7));
    run := Extend(run, ReportFailure("w", 7, "boom"));
  }
}
