// What the dashboard and the agent page show, against the table and the log they are drawn from.

module Views {
  import opened Tasks
  import opened Machine
  import opened Invariants
  import opened Leases

  // ---- log tails ----

  /** The log lines of the given tasks, in id order. */
  function LinesOf(logs: seq<LogEntry>, tasks: set<TaskId>): seq<LogEntry> {
    if logs == [] then []
    else LinesOf(logs[..|logs| - 1], tasks)
         + (if logs[|logs| - 1].task in tasks then [logs[|logs| - 1]] else [])
  }

  /** ListTaskLogs: oldest first; a limit that is not positive is no limit. */
  function ListTaskLogs(logs: seq<LogEntry>, t: TaskId, limit: int): seq<LogEntry> {
    var lines := LinesOf(logs, {t});
    if 0 < limit < |lines| then lines[..limit] else lines
  }

  /** With a positive limit the log is cut after its first lines, not before its last ones. */
  lemma LimitedLog(logs: seq<LogEntry>, t: TaskId, limit: int, i: nat)
    ensures var lines, shown := ListTaskLogs(logs, t, 0), ListTaskLogs(logs, t, limit);
            && |shown| == (if 0 < limit < |lines| then limit else |lines|)
            && (i < |shown| ==> shown[i] == lines[i])
  {
  }

  function LastOf<T>(s: seq<T>, n: nat): seq<T> {
    if |s| <= n then s else s[|s| - n..]
  }

  function Reversed<T>(s: seq<T>): (r: seq<T>)
    ensures |r| == |s| && forall i :: 0 <= i < |s| ==> r[i] == s[|s| - 1 - i]
  {
    if s == [] then [] else [s[|s| - 1]] + Reversed(s[..|s| - 1])
  }

  /** The in-place reversal both log views end with. */
  method ReverseInPlace<T>(a: array<T>)
    modifies a
    ensures a[..] == Reversed(old(a[..]))
  {
    var i, j := 0, a.Length - 1;
    while i < j
      invariant 0 <= i && i + j == a.Length - 1 && i <= j + 1
      invariant forall k :: 0 <= k < i || j < k < a.Length ==> a[k] == old(a[a.Length - 1 - k])
      invariant forall k :: i <= k <= j ==> a[k] == old(a[k])
    {
      a[i], a[j] := a[j], a[i];
      i, j := i + 1, j - 1;
    }
  }

  /** SELECT ... FROM task_logs WHERE the task is one of these ORDER BY id DESC LIMIT n. */
  method NewestFirst(logs: seq<LogEntry>, tasks: set<TaskId>, n: nat) returns (newest: seq<LogEntry>)
    ensures Reversed(newest) == LastOf(LinesOf(logs, tasks), n)
  {
    newest := [];
    var k := |logs|;
    assert logs[..k] == logs;
    while k > 0 && |newest| < n
      invariant 0 <= k <= |logs| && |newest| <= n
      invariant LinesOf(logs, tasks) == LinesOf(logs[..k], tasks) + Reversed(newest)
    {
      k := k - 1;
      assert logs[..k + 1][..k] == logs[..k];
      if logs[k].task in tasks {
        assert Reversed(newest + [logs[k]]) == [logs[k]] + Reversed(newest);
        newest := newest + [logs[k]];
      }
    }
    assert k == 0 ==> LinesOf(logs[..k], tasks) == [];
  }

  /** recentTaskLogs: the newest n lines of the task, turned round in place. What comes out is the
      end of the task's full log, in order. */
  method RecentTaskLogs(logs: seq<LogEntry>, t: TaskId, n: nat) returns (out: array<LogEntry>)
    ensures fresh(out) && out[..] == LastOf(ListTaskLogs(logs, t, 0), n)
    ensures var lines := LinesOf(logs, {t});
            && out.Length == (if |lines| <= n then |lines| else n)
            && forall i :: 0 <= i < out.Length ==> out[i] == lines[|lines| - out.Length + i]
  {
    var newest := NewestFirst(logs, {t}, n);
    out := new LogEntry[|newest|](i requires 0 <= i < |newest| => newest[i]);
    assert out[..] == newest;
    ReverseInPlace(out);
  }

  /** workerLogTail: the same over all the tasks whose row names the worker now. */
  method WorkerLogTail(s: Db, w: WorkerId, n: nat) returns (out: array<LogEntry>)
    ensures fresh(out) && out[..] == LastOf(LinesOf(s.logs, Group(s.rows, w)), n)
    ensures var lines := LinesOf(s.logs, Group(s.rows, w));
            && out.Length == (if |lines| <= n then |lines| else n)
            && forall i :: 0 <= i < out.Length ==> out[i] == lines[|lines| - out.Length + i]
  {
    var newest := NewestFirst(s.logs, Group(s.rows, w), n);
    out := new LogEntry[|newest|](i requires 0 <= i < |newest| => newest[i]);
    assert out[..] == newest;
    ReverseInPlace(out);
  }

  /** The tasks whose claimed_by names the worker, finished ones included. */
  function Group(rows: map<TaskId, Task>, w: WorkerId): set<TaskId> {
    set t | t in rows && rows[t].claimedBy == Some(w)
  }

  lemma LinesOfAppend(logs: seq<LogEntry>, e: LogEntry, tasks: set<TaskId>)
    ensures LinesOf(logs + [e], tasks) == LinesOf(logs, tasks) + (if e.task in tasks then [e] else [])
  {
    assert (logs + [e])[..|logs|] == logs;
  }

  lemma {:induction false} LinesOfConcat(a: seq<LogEntry>, b: seq<LogEntry>, tasks: set<TaskId>)
    ensures LinesOf(a + b, tasks) == LinesOf(a, tasks) + LinesOf(b, tasks)
  {
    if b == [] {
      assert a + b == a;
    } else {
      LinesOfConcat(a, b[..|b| - 1], tasks);
      assert (a + b)[..|a + b| - 1] == a + b[..|b| - 1];
    }
  }

  lemma {:induction false} LinesOfLines(logs: seq<LogEntry>, tasks: set<TaskId>, t: TaskId)
    requires t in tasks
    ensures LinesOf(LinesOf(logs, tasks), {t}) == LinesOf(logs, {t})
  {
    if logs != [] {
      var init, last := logs[..|logs| - 1], logs[|logs| - 1];
      LinesOfLines(init, tasks, t);
      if last.task in tasks {
        LinesOfAppend(LinesOf(init, tasks), last, {t});
      } else {
        assert LinesOf(logs, tasks) == LinesOf(init, tasks);
      }
    }
  }

  /** A worker's tail and the logs of its tasks agree: what the tail shows of one task is the end of
      that task's own full log. */
  lemma WorkerTailShowsTaskTails(s: Db, w: WorkerId, n: nat, t: TaskId)
    requires t in Group(s.rows, w)
    ensures var shown := LinesOf(LastOf(LinesOf(s.logs, Group(s.rows, w)), n), {t});
            shown == LastOf(ListTaskLogs(s.logs, t, 0), |shown|)
  {
    var lines := LinesOf(s.logs, Group(s.rows, w));
    LinesOfLines(s.logs, Group(s.rows, w), t);
    var cut := if |lines| <= n then 0 else |lines| - n;
    assert lines == lines[..cut] + lines[cut..] && LastOf(lines, n) == lines[cut..];
    LinesOfConcat(lines[..cut], lines[cut..], {t});
  }

  lemma {:induction false} LinesAfterDelete(logs: seq<LogEntry>, t: TaskId, u: TaskId)
    ensures LinesOf(WithoutTask(logs, t), {u}) == if t == u then [] else LinesOf(logs, {u})
  {
    if logs != [] {
      LinesAfterDelete(logs[1..], t, u);
      assert logs == [logs[0]] + logs[1..];
      LinesOfConcat([logs[0]], logs[1..], {u});
      LinesOfConcat([logs[0]], WithoutTask(logs[1..], t), {u});
      assert LinesOf([logs[0]], {u}) == if logs[0].task == u then [logs[0]] else [] by {
        assert [logs[0]][..0] == [];
      }
    }
  }

  /** The messages of the accepted AppendTaskLog calls on t, in the order they were accepted. */
  ghost function Messages(run: Run, k: nat, t: TaskId): seq<string>
    requires k <= |run.events|
  {
    if k == 0 then []
    else Messages(run, k - 1, t)
         + (if run.events[k - 1].AppendLog? && run.events[k - 1].task == t then [run.events[k - 1].message] else [])
  }

  function Texts(lines: seq<LogEntry>): seq<string> {
    if lines == [] then [] else Texts(lines[..|lines| - 1]) + [lines[|lines| - 1].message]
  }

  lemma TextsAppend(lines: seq<LogEntry>, e: LogEntry)
    ensures Texts(lines + [e]) == Texts(lines) + [e.message]
  {
    assert (lines + [e])[..|lines|] == lines;
  }

  lemma LogStep(s: Db, e: Event, s': Db, t: TaskId)
    requires Step(s, e, s')
    ensures LinesOf(s'.logs, {t}) ==
            if e.AppendLog? && e.task == t then LinesOf(s.logs, {t}) + [LogEntry(s.nextLog, t, e.message, s.now)]
            else if e == Delete(t) then [] else LinesOf(s.logs, {t})
  {
    if e.AppendLog? {
      LinesOfAppend(s.logs, LogEntry(s.nextLog, e.task, e.message, s.now), {t});
    } else if e.Delete? {
      LinesAfterDelete(s.logs, e.task, t);
    }
  }

  ghost predicate LogMatches(s: Db, messages: seq<string>, t: TaskId) {
    && (t in s.rows ==> Texts(LinesOf(s.logs, {t})) == messages)
    && (t !in s.known ==> messages == [] && LinesOf(s.logs, {t}) == [])
  }

  lemma LogMatchStep(s: Db, e: Event, s': Db, messages: seq<string>, t: TaskId)
    requires Step(s, e, s') && s.rows.Keys <= s.known && LogMatches(s, messages, t)
    ensures LogMatches(s', messages + (if e.AppendLog? && e.task == t then [e.message] else []), t)
  {
    LogStep(s, e, s', t);
    RowComesOrGoes(s, e, s', t);
    if e.AppendLog? && e.task == t {
      TextsAppend(LinesOf(s.logs, {t}), LogEntry(s.nextLog, t, e.message, s.now));
    } else {
      assert messages + [] == messages;
    }
  }

  /** As long as the task exists, the full log of a task is exactly what its holders appended, in
      order: nothing lost, nothing doubled, nothing from another task. */
  lemma {:induction false} LogIsHistory(run: Run, k: nat, t: TaskId)
    requires Valid(run) && k <= |run.events|
    ensures LogMatches(run.states[k], Messages(run, k, t), t)
    ensures t in run.states[k].rows ==> Texts(ListTaskLogs(run.states[k].logs, t, 0)) == Messages(run, k, t)
  {
    if k > 0 {
      LogIsHistory(run, k - 1, t);
      ReachableInv(run, k - 1);
      assert StepAt(run, k - 1);
      LogMatchStep(run.states[k - 1], run.events[k - 1], run.states[k], Messages(run, k - 1, t), t);
    }
  }

  // ---- who holds what ----

  function ActiveOf(s: Db, w: WorkerId): set<TaskId> {
    set t | t in s.rows && OwnedBy(s.rows[t], w)
  }

  function ActiveIds(s: Db): set<TaskId> {
    set t | t in s.rows && Active(s.rows[t])
  }

  /** A worker never holds two tasks if and only if it never has a claim accepted while it holds
      one; the store itself does not enforce it. */
  lemma OneTaskPerWorkerIff(run: Run, w: WorkerId)
    requires Valid(run)
    ensures (forall k: nat :: k <= |run.events| ==> |ActiveOf(run.states[k], w)| <= 1) <==>
            (forall k: nat :: k < |run.events| && run.events[k].Claim? && run.events[k].worker == w ==>
               ActiveOf(run.states[k], w) == {})
  {
    if forall k: nat :: k <= |run.events| ==> |ActiveOf(run.states[k], w)| <= 1 {
      forall k: nat | k < |run.events| && run.events[k].Claim? && run.events[k].worker == w
        ensures ActiveOf(run.states[k], w) == {}
      {
        HoldsGrowByClaims(run, k, w);
        assert |ActiveOf(run.states[k + 1], w)| <= 1;
      }
    }
    if forall k: nat :: k < |run.events| && run.events[k].Claim? && run.events[k].worker == w ==>
         ActiveOf(run.states[k], w) == {} {
      forall k: nat | k <= |run.events|
        ensures |ActiveOf(run.states[k], w)| <= 1
      {
        IdleClaimsHoldOne(run, k, w);
      }
    }
  }

  /** Nothing in the store prevents it: two tasks, and two claims by one worker. */
  lemma TwoTasksAtOnce() returns (run: Run)
    ensures Valid(run) && |run.events| == 4
    ensures run.events[2] == Claim("w", 1) && run.events[3] == Claim("w", 2)
    ensures ActiveOf(run.states[3], "w") == {1} && ActiveOf(run.states[4], "w") == {1, 2}
  {
    var input := NewTask("n", "p", true, 0, 3, None, None, None);
    run := Run([Empty(0)], []);
    run := Extend(run, Create(1, input));
    run := Extend(run, Create(2, input));
    run := Extend(run, Claim("w", 1));
    run := Extend(run, Claim("w", 2));
  }

  lemma HoldsGrowByClaims(run: Run, k: nat, w: WorkerId)
    requires Valid(run) && k < |run.events|
    ensures var s, e, s' := run.states[k], run.events[k], run.states[k + 1];
            if e.Claim? && e.worker == w
            then e.task !in ActiveOf(s, w) && ActiveOf(s', w) == ActiveOf(s, w) + {e.task}
                 && |ActiveOf(s', w)| == |ActiveOf(s, w)| + 1
            else ActiveOf(s', w) <= ActiveOf(s, w)
  {
    var s, e, s' := run.states[k], run.events[k], run.states[k + 1];
    assert StepAt(run, k);
    forall t | t in s'.rows
      ensures t in ActiveOf(s', w) ==> t in ActiveOf(s, w) || e == Claim(w, t)
      ensures e.Claim? && t in ActiveOf(s, w) ==> t in ActiveOf(s', w)
    {
      LeaseStep(s, e, s', t);
    }
    if e.Claim? && e.worker == w {
      LeaseStep(s, e, s', e.task);
      assert forall t :: t in s.rows ==> t in s'.rows;
      assert ActiveOf(s', w) == ActiveOf(s, w) + {e.task};
    }
  }

  lemma {:induction false} IdleClaimsHoldOne(run: Run, k: nat, w: WorkerId)
    requires Valid(run) && k <= |run.events|
    requires forall j: nat :: j < |run.events| && run.events[j].Claim? && run.events[j].worker == w ==>
               ActiveOf(run.states[j], w) == {}
    ensures |ActiveOf(run.states[k], w)| <= 1
  {
    if k == 0 {
      assert ActiveOf(run.states[0], w) == {};
    } else {
      IdleClaimsHoldOne(run, k - 1, w);
      HoldsGrowByClaims(run, k - 1, w);
      SubsetSize(ActiveOf(run.states[k], w), ActiveOf(run.states[k - 1], w));
    }
  }

  lemma {:induction false} SubsetSize(a: set<TaskId>, b: set<TaskId>)
    ensures a <= b ==> |a| <= |b|
  {
    if a <= b {
      assert b == a + (b - a);
    }
  }

  // ---- the current task of a worker, two ways ----

  datatype HeldTask = HeldTask(id: TaskId, row: Task)

  /** SELECT ... WHERE claimed_by IS NOT NULL AND status active ORDER BY claimed_at DESC. */
  ghost predicate ActiveListing(s: Db, all: seq<HeldTask>) {
    && (forall i :: 0 <= i < |all| ==>
          all[i].id in s.rows && s.rows[all[i].id] == all[i].row && Active(all[i].row)
          && all[i].row.claimedBy.Some? && all[i].row.claimedAt.Some?)
    && (forall t :: t in s.rows && Active(s.rows[t]) && s.rows[t].claimedBy.Some? ==> HeldTask(t, s.rows[t]) in all)
    && (forall i, j :: 0 <= i < j < |all| ==> all[i].row.claimedAt.value >= all[j].row.claimedAt.value)
  }

  /** What workerCurrentTask selects for w: an active row of w claimed last. */
  ghost predicate CurrentOf(s: Db, w: WorkerId, h: HeldTask) {
    && h.id in s.rows && s.rows[h.id] == h.row && OwnedBy(h.row, w) && h.row.claimedAt.Some?
    && forall t :: t in ActiveOf(s, w) && s.rows[t].claimedAt.Some? ==>
                     s.rows[t].claimedAt.value <= h.row.claimedAt.value
  }

  /** h is the first row of w among the first k of the listing. */
  ghost predicate SeenFirst(all: seq<HeldTask>, k: nat, w: WorkerId, h: HeldTask)
    requires k <= |all|
  {
    exists i :: 0 <= i < k && all[i] == h && OwnedBy(all[i].row, w)
                && forall j :: 0 <= j < i ==> all[j].row.claimedBy != Some(w)
  }

  /** The map holds the first row seen of each worker. */
  ghost predicate FirstRows(all: seq<HeldTask>, k: nat, out: map<WorkerId, HeldTask>)
    requires k <= |all|
  {
    && (forall w :: w in out ==> SeenFirst(all, k, w, out[w]))
    && (forall j, w :: 0 <= j < k && all[j].row.claimedBy == Some(w) ==> w in out)
  }

  lemma NextRow(all: seq<HeldTask>, k: nat, out: map<WorkerId, HeldTask>, w: WorkerId)
    requires k < |all| && FirstRows(all, k, out) && OwnedBy(all[k].row, w)
    ensures FirstRows(all, k + 1, if w in out then out else out[w := all[k]])
  {
    var next := if w in out then out else out[w := all[k]];
    forall v | v in next
      ensures SeenFirst(all, k + 1, v, next[v])
    {
      if v in out {
        assert SeenFirst(all, k, v, out[v]);
      } else {
        assert all[k] == next[v];
      }
    }
  }

  /** activeTasksByWorker: the first row seen of each worker wins. */
  method ActiveTasksByWorker(s: Db, all: seq<HeldTask>) returns (out: map<WorkerId, HeldTask>)
    requires ActiveListing(s, all)
    ensures forall w :: w in out <==> ActiveOf(s, w) != {}
    ensures forall w :: w in out ==> CurrentOf(s, w, out[w])
  {
    out := map[];
    for k := 0 to |all|
      invariant FirstRows(all, k, out)
    {
      var h := all[k];
      NextRow(all, k, out, h.row.claimedBy.value);
      if h.row.claimedBy.value !in out {
        out := out[h.row.claimedBy.value := h];
      }
    }
    forall w
      ensures w in out <==> ActiveOf(s, w) != {}
      ensures w in out ==> CurrentOf(s, w, out[w])
    {
      FirstIsCurrent(s, all, out, w);
    }
  }

  lemma ListedAt(s: Db, all: seq<HeldTask>, w: WorkerId, t: TaskId) returns (j: nat)
    requires ActiveListing(s, all) && t in ActiveOf(s, w)
    ensures j < |all| && all[j] == HeldTask(t, s.rows[t])
  {
    assert HeldTask(t, s.rows[t]) in all;
    j :| 0 <= j < |all| && all[j] == HeldTask(t, s.rows[t]);
  }

  lemma FirstIsCurrent(s: Db, all: seq<HeldTask>, out: map<WorkerId, HeldTask>, w: WorkerId)
    requires ActiveListing(s, all) && FirstRows(all, |all|, out)
    ensures w in out <==> ActiveOf(s, w) != {}
    ensures w in out ==> CurrentOf(s, w, out[w])
  {
    if w in out {
      var i :| 0 <= i < |all| && all[i] == out[w] && OwnedBy(all[i].row, w)
               && forall j :: 0 <= j < i ==> all[j].row.claimedBy != Some(w);
      assert out[w].id in ActiveOf(s, w);
      forall t | t in ActiveOf(s, w) && s.rows[t].claimedAt.Some?
        ensures s.rows[t].claimedAt.value <= out[w].row.claimedAt.value
      {
        var j := ListedAt(s, all, w, t);
      }
    }
    if t :| t in ActiveOf(s, w) {
      var j := ListedAt(s, all, w, t);
    }
  }

  /** With distinct claim times the dashboard and the agent page show the same current task. */
  lemma CurrentIsUnique(s: Db, w: WorkerId, g: HeldTask, h: HeldTask)
    requires CurrentOf(s, w, g) && CurrentOf(s, w, h)
    requires forall t, u :: t in ActiveOf(s, w) && u in ActiveOf(s, w) && t != u ==>
                              s.rows[t].claimedAt != s.rows[u].claimedAt
    ensures g == h
  {
    assert g.id in ActiveOf(s, w) && h.id in ActiveOf(s, w);
  }
}
