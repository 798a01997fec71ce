// The reaper's bulk statement against the simple thing: failing the stale tasks one at a time.

module Reaping {
  import opened Tasks
  import opened Machine
  import opened Invariants

  function StaleIds(s: Db, v: Time): set<TaskId> {
    set t | t in s.rows && Stale(s.rows[t], s.now, v)
  }

  function WithStatus(rows: map<TaskId, Task>, status: Status): set<TaskId> {
    set t | t in rows && rows[t].status == status
  }

  /** The stale rows with attempts left, and those without. */
  function ToRequeue(s: Db, v: Time): set<TaskId> {
    set t | t in s.rows && Stale(s.rows[t], s.now, v) && !Exhausted(s.rows[t])
  }

  function ToFail(s: Db, v: Time): set<TaskId> {
    set t | t in s.rows && Stale(s.rows[t], s.now, v) && Exhausted(s.rows[t])
  }

  // ---- one at a time ----

  /** The holder of t reports the failure the reaper would record. */
  function ExpiryReport(s: Db, t: TaskId): Event
    requires t in s.rows && s.rows[t].claimedBy.Some?
  {
    ReportFailure(s.rows[t].claimedBy.value, t, LEASE_EXPIRED)
  }

  /** The reports can be made one after the other in this order, each accepted when it is made. */
  ghost predicate Reportable(s: Db, order: seq<TaskId>)
    decreases |order|
  {
    order == [] ||
    (order[0] in s.rows && s.rows[order[0]].claimedBy.Some?
     && Accepts(s, ExpiryReport(s, order[0]))
     && Reportable(Apply(s, ExpiryReport(s, order[0])), order[1..]))
  }

  ghost function ReportAll(s: Db, order: seq<TaskId>): Db
    requires Reportable(s, order)
    decreases |order|
  {
    if order == [] then s else ReportAll(Apply(s, ExpiryReport(s, order[0])), order[1..])
  }

  function Expire(s: Db, ids: set<TaskId>): Db {
    s.(rows := map t | t in s.rows :: if t in ids then AttemptFailed(s.rows[t], LEASE_EXPIRED, s.now) else s.rows[t])
  }

  ghost predicate Distinct(order: seq<TaskId>) {
    forall i, j :: 0 <= i < j < |order| ==> order[i] != order[j]
  }

  lemma {:induction false} ReportingExpires(s: Db, order: seq<TaskId>)
    requires Distinct(order)
    requires forall t :: t in order ==> t in s.rows && Active(s.rows[t]) && s.rows[t].claimedBy.Some?
    ensures Reportable(s, order)
    ensures ReportAll(s, order) == Expire(s, set t | t in order)
    decreases |order|
  {
    if order == [] {
      assert Expire(s, {}).rows == s.rows;
    } else {
      var t := order[0];
      var s' := Apply(s, ExpiryReport(s, t));
      assert s' == Expire(s, {t});
      ReportingExpires(s', order[1..]);
      assert forall u :: u in order <==> u == t || u in order[1..];
      assert Expire(s', set u | u in order[1..]).rows == Expire(s, set u | u in order).rows;
    }
  }

  /** ReapStale equals reporting every stale task failed with "lease expired", one at a time, in
      any order whatsoever, every one of those reports being accepted. */
  lemma ReapIsOneByOne(s: Db, v: Time, order: seq<TaskId>)
    requires DbInv(s) && Distinct(order) && (set t | t in order) == StaleIds(s, v)
    ensures Reportable(s, order)
    ensures ReportAll(s, order) == Apply(s, Reap(v))
  {
    forall t | t in order
      ensures t in s.rows && Active(s.rows[t]) && s.rows[t].claimedBy.Some?
    {
      assert t in StaleIds(s, v);
    }
    ReportingExpires(s, order);
    assert Expire(s, StaleIds(s, v)).rows == Apply(s, Reap(v)).rows;
  }

  // ---- complete, idempotent, and counted ----

  /** After a reap nothing stale is left, so an immediate second one changes nothing. */
  lemma ReapIsComplete(s: Db, v: Time)
    ensures var s' := Apply(s, Reap(v));
            StaleIds(s', v) == {} && Apply(s', Reap(v)) == s'
  {
    var s' := Apply(s, Reap(v));
    assert forall t :: t in s.rows ==> s'.rows[t] == Touch(s.now, Reap(v), t, s.rows[t]);
    assert StaleIds(s', v) == {};
    assert Apply(s', Reap(v)).rows == s'.rows;
  }

  lemma ReapMovesRows(s: Db, v: Time)
    ensures var s' := Apply(s, Reap(v));
            && WithStatus(s'.rows, Pending) == WithStatus(s.rows, Pending) + ToRequeue(s, v)
            && WithStatus(s'.rows, Failed) == WithStatus(s.rows, Failed) + ToFail(s, v)
  {
    var s' := Apply(s, Reap(v));
    forall t | t in s.rows
      ensures s'.rows[t].status == if t in ToRequeue(s, v) then Pending
                                   else if t in ToFail(s, v) then Failed else s.rows[t].status
    {
      assert s'.rows[t] == Touch(s.now, Reap(v), t, s.rows[t]);
    }
  }

  lemma StaleSplits(s: Db, v: Time)
    ensures |StaleIds(s, v)| == |ToRequeue(s, v)| + |ToFail(s, v)|
  {
    assert StaleIds(s, v) == ToRequeue(s, v) + ToFail(s, v);
    assert ToRequeue(s, v) !! ToFail(s, v);
  }

  /** The two counts ReapStale returns are the growth of the pending and of the failed rows, and
      together they are the number of stale rows. */
  lemma ReapCounts(s: Db, v: Time)
    ensures var s' := Apply(s, Reap(v));
            && |WithStatus(s'.rows, Pending)| == |WithStatus(s.rows, Pending)| + |ToRequeue(s, v)|
            && |WithStatus(s'.rows, Failed)| == |WithStatus(s.rows, Failed)| + |ToFail(s, v)|
            && |StaleIds(s, v)| == |ToRequeue(s, v)| + |ToFail(s, v)|
  {
    ReapMovesRows(s, v);
    assert WithStatus(s.rows, Pending) !! ToRequeue(s, v);
    assert WithStatus(s.rows, Failed) !! ToFail(s, v);
    StaleSplits(s, v);
  }
}
