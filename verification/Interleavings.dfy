// Theorems over every interleaving of any number of ClaimNext, Complete, Fail and OpenPR calls on
// one worker, with its heartbeat goroutines running beside them.

module Interleavings {
  import opened Tasks
  import opened Worker

  datatype WorkerRun = WorkerRun(states: seq<State>, acts: seq<Act>)

  ghost predicate ActAt(run: WorkerRun, k: nat)
    requires k < |run.acts| && |run.states| == |run.acts| + 1
  {
    Enabled(run.states[k], run.acts[k]) && run.states[k + 1] == Do(run.states[k], run.acts[k])
  }

  ghost predicate Valid(run: WorkerRun) {
    && |run.states| == |run.acts| + 1
    && run.states[0] == IDLE_STATE
    && forall k: nat :: k < |run.acts| ==> ActAt(run, k)
  }

  ghost function Extend(run: WorkerRun, a: Act): (r: WorkerRun)
    requires Valid(run) && Enabled(run.states[|run.acts|], a)
    ensures Valid(r) && r.acts == run.acts + [a]
    ensures r.states == run.states + [Do(run.states[|run.acts|], a)]
  {
    var r := WorkerRun(run.states + [Do(run.states[|run.acts|], a)], run.acts + [a]);
    assert forall k: nat :: k < |r.acts| ==> ActAt(r, k) by {
      forall k: nat | k < |r.acts|
        ensures ActAt(r, k)
      {
        if k < |run.acts| {
          assert ActAt(run, k);
        }
      }
    }
    r
  }

  lemma {:induction false} ReachableInv(run: WorkerRun, k: nat)
    requires Valid(run) && k <= |run.acts|
    ensures Inv(run.states[k])
  {
    if k > 0 {
      ReachableInv(run, k - 1);
      assert ActAt(run, k - 1);
      StepKeepsInv(run.states[k - 1], run.acts[k - 1]);
    }
  }

  // ---- whose claim does clear() drop ----

  /** A call on its way from a successful markFinalized of h to the end of its clear. */
  predicate Driving(pc: Pc, h: HandleId) {
    (InFinalize(pc) && pc.kind != Drop && pc.h == h) || pc == Clearing(h)
  }

  lemma DrivingStep(s: State, a: Act, x: Thread, h: HandleId)
    requires Enabled(s, a) && Driving(Where(Do(s, a), x), h)
    ensures Driving(Where(s, x), h) || (a == Mark(x) && h in s.tasks && !s.tasks[h].finalized)
  {
  }

  lemma DrivenIsCurrent(s: State, x: Thread, h: HandleId)
    requires Inv(s) && Driving(Where(s, x), h)
    ensures s.current == Some(h)
  {
    assert PcInv(s, s.threads[x]);
  }

  lemma {:induction false} DrivingSince(run: WorkerRun, k: nat, x: Thread, h: HandleId) returns (j: nat)
    requires Valid(run) && k <= |run.acts| && Driving(Where(run.states[k], x), h)
    ensures j < k && run.acts[j] == Mark(x) && h in run.states[j].tasks && !run.states[j].tasks[h].finalized
    ensures forall m :: j < m <= k ==> run.states[m].current == Some(h)
    decreases k
  {
    ReachableInv(run, k);
    DrivenIsCurrent(run.states[k], x, h);
    assert k > 0;
    ReachableInv(run, k - 1);
    assert ActAt(run, k - 1);
    DrivingStep(run.states[k - 1], run.acts[k - 1], x, h);
    if Driving(Where(run.states[k - 1], x), h) {
      j := DrivingSince(run, k - 1, x, h);
    } else {
      j := k - 1;
    }
  }

  /** The unconditional clear() after a successful finalise removes exactly the handle that call
      finalised: it was current at every moment from the call's markFinalized to the clear, so no
      newer claim can be standing there, and its RPC has been sent. */
  lemma ClearDropsOwnTask(run: WorkerRun, k: nat, x: Thread) returns (h: HandleId, j: nat)
    requires Valid(run) && k < |run.acts| && run.acts[k] == Clear(x)
    ensures Where(run.states[k], x) == Clearing(h) && run.states[k].current == Some(h)
    ensures run.states[k + 1].current == None && run.states[k + 1].stopHB == None
    ensures h in run.states[k].tasks && run.states[k].tasks[h].finalized && run.states[k].tasks[h].sends == 1
    ensures j < k && run.acts[j] == Mark(x) && h in run.states[j].tasks && !run.states[j].tasks[h].finalized
    ensures forall m :: j < m <= k ==> run.states[m].current == Some(h)
  {
    assert ActAt(run, k);
    ReachableInv(run, k);
    h := Where(run.states[k], x).h;
    assert PcInv(run.states[k], run.states[k].threads[x]);
    j := DrivingSince(run, k, x, h);
  }

  /** A call that got its handle from requireTask and finds another handle, or none, current when
      it comes to mark it, finds it finalised: it returns an error and touches nothing else. */
  lemma StaleHandleIsFinalized(run: WorkerRun, k: nat, x: Thread, h: HandleId, kind: Kind)
    requires Valid(run) && k < |run.acts| && run.acts[k] == Mark(x)
    requires Where(run.states[k], x) == Marking(h, kind) && kind != Drop && run.states[k].current != Some(h)
    ensures run.states[k + 1] == run.states[k].(threads := run.states[k].threads[x := Done])
  {
    assert ActAt(run, k);
    ReachableInv(run, k);
    assert PcInv(run.states[k], run.states[k].threads[x]);
  }

  /** A current handle stays current until a call that finalised it clears it. */
  lemma CurrentLeavesOnlyByClear(run: WorkerRun, k: nat)
    requires Valid(run) && k < |run.acts| && run.states[k].current.Some?
    requires run.states[k + 1].current != run.states[k].current
    ensures run.acts[k].Clear? && run.states[k + 1].current == None
    ensures Where(run.states[k], run.acts[k].x) == Clearing(run.states[k].current.value)
  {
    assert ActAt(run, k);
    ReachableInv(run, k);
    if run.acts[k].Clear? {
      assert PcInv(run.states[k], run.states[k].threads[run.acts[k].x]);
    }
  }

  /** At most one handle has its heartbeat armed, and it is the current one. */
  lemma OneArmedHandle(run: WorkerRun, k: nat, g: HandleId, h: HandleId)
    requires Valid(run) && k <= |run.acts| && g in run.states[k].tasks && h in run.states[k].tasks
    requires run.states[k].tasks[g].armed && run.states[k].tasks[h].armed
    ensures g == h && run.states[k].current == Some(g)
  {
    ReachableInv(run, k);
    assert HandleInv(run.states[k], g) && HandleInv(run.states[k], h);
  }

  /** As long as the current handle is not finalised, its heartbeat goroutine is running, between two
      heartbeats or in the middle of one, and nobody has told it to stop. */
  lemma CurrentTaskBeats(run: WorkerRun, k: nat, h: HandleId)
    requires Valid(run) && k <= |run.acts| && run.states[k].current == Some(h)
    ensures h in run.states[k].tasks
    ensures !run.states[k].tasks[h].finalized ==>
              !run.states[k].tasks[h].cancelled && !Quiet(run.states[k].tasks[h])
  {
    ReachableInv(run, k);
    assert HandleInv(run.states[k], h);
  }

  // ---- one finalising RPC, after the last heartbeat ----

  predicate SendsFor(s: State, a: Act, h: HandleId) {
    a.Send? && Where(s, a.x).Sending? && Where(s, a.x).h == h
  }

  ghost function SendsOf(run: WorkerRun, k: nat, h: HandleId): nat
    requires k <= |run.acts| && |run.states| == |run.acts| + 1
  {
    if k == 0 then 0
    else SendsOf(run, k - 1, h) + (if SendsFor(run.states[k - 1], run.acts[k - 1], h) then 1 else 0)
  }

  lemma SendStep(s: State, a: Act, h: HandleId)
    requires Enabled(s, a)
    ensures h in s.tasks ==> h in Do(s, a).tasks && s.tasks[h].task == Do(s, a).tasks[h].task
                             && (s.tasks[h].finalized ==> Do(s, a).tasks[h].finalized)
    ensures h in Do(s, a).tasks ==>
              Do(s, a).tasks[h].sends == (if h in s.tasks then s.tasks[h].sends else 0)
                                         + (if SendsFor(s, a, h) then 1 else 0)
  {
  }

  /** No handle ever sends a second finalising RPC. */
  lemma {:induction false} AtMostOneFinalizingRPC(run: WorkerRun, k: nat, h: HandleId)
    requires Valid(run) && k <= |run.acts|
    ensures SendsOf(run, k, h) <= 1
    ensures SendsOf(run, k, h) == if h in run.states[k].tasks then run.states[k].tasks[h].sends else 0
  {
    ReachableInv(run, k);
    if k > 0 {
      AtMostOneFinalizingRPC(run, k - 1, h);
      ReachableInv(run, k - 1);
      assert ActAt(run, k - 1);
      SendStep(run.states[k - 1], run.acts[k - 1], h);
    }
    if h in run.states[k].tasks {
      assert HandleInv(run.states[k], h);
    }
  }

  /** When the finalising RPC of a handle is sent its heartbeat goroutine has exited, or was never
      started, and at no later moment does a heartbeat call of that handle start. */
  lemma NoHeartbeatAfterFinalizingRPC(run: WorkerRun, i: nat, j: nat, h: HandleId)
    requires Valid(run) && i <= j < |run.acts| && SendsFor(run.states[i], run.acts[i], h)
    ensures h in run.states[i].tasks && Quiet(run.states[i].tasks[h])
    ensures run.acts[j] != BeatStarts(h)
  {
    var x := run.acts[i].x;
    assert ActAt(run, i);
    ReachableInv(run, i);
    assert PcInv(run.states[i], run.states[i].threads[x]);
    assert ActAt(run, j);
    if i < j {
      SentStaysSent(run, i + 1, j, h);
      ReachableInv(run, j);
      assert HandleInv(run.states[j], h);
    }
  }

  lemma {:induction false} SentStaysSent(run: WorkerRun, i: nat, j: nat, h: HandleId)
    requires Valid(run) && i <= j <= |run.acts|
    requires h in run.states[i].tasks && run.states[i].tasks[h].sends == 1
    ensures h in run.states[j].tasks && run.states[j].tasks[h].sends == 1
    decreases j
  {
    if i < j {
      SentStaysSent(run, i, j - 1, h);
      ReachableInv(run, j - 1);
      ReachableInv(run, j);
      assert ActAt(run, j - 1);
      SendStep(run.states[j - 1], run.acts[j - 1], h);
      assert HandleInv(run.states[j], h);
    }
  }

  // ---- no claim is forgotten ----

  /** The handle is held, or its one finalising RPC has been sent, or a call is on its way to keep it
      or to send that RPC. */
  ghost predicate Accounted(s: State, h: HandleId)
    requires h in s.tasks
  {
    || (s.current == Some(h) && !s.tasks[h].finalized)
    || s.tasks[h].sends == 1
    || exists x :: x in s.threads && Pen(s.threads[x]) == Some(h)
  }

  lemma PenLeadsOn(s: State, a: Act, x: Thread, h: HandleId)
    requires Enabled(s, a) && x in s.threads && Pen(s.threads[x]) == Some(h) && PcInv(s, s.threads[x])
    requires h in s.tasks && h in Do(s, a).tasks
    ensures Accounted(Do(s, a), h)
  {
    var s' := Do(s, a);
    if a.Publish? && a.x == x {
      assert s.current.Some? ==> Pen(s'.threads[a.dropper]) == Some(h);
    } else {
      assert x in s'.threads;
    }
  }

  lemma AccountedStep(s: State, a: Act, h: HandleId)
    requires Inv(s) && Enabled(s, a) && h in Do(s, a).tasks
    requires h in s.tasks ==> Accounted(s, h)
    ensures Accounted(Do(s, a), h)
  {
    if h !in s.tasks {
      assert Pen(Do(s, a).threads[a.x]) == Some(h);
    } else if x :| x in s.threads && Pen(s.threads[x]) == Some(h) {
      PenLeadsOn(s, a, x, h);
    } else if s.tasks[h].sends == 1 {
      SendStep(s, a, h);
      StepKeepsHandle(s, a, h);
    } else if a.Mark? && Where(s, a.x).h == h {
      assert a.x in Do(s, a).threads;
    }
  }

  /** No claim that reached the worker is ever forgotten: at every moment its handle is the current
      one, or its finalising RPC has been sent, or a call stands ready to keep it or to send it. So a
      call that loses the claim race always has its task given back. */
  lemma {:induction false} NoClaimIsForgotten(run: WorkerRun, k: nat, h: HandleId)
    requires Valid(run) && k <= |run.acts| && h in run.states[k].tasks
    ensures Accounted(run.states[k], h)
  {
    assert k > 0;
    ReachableInv(run, k - 1);
    assert ActAt(run, k - 1);
    if h in run.states[k - 1].tasks {
      NoClaimIsForgotten(run, k - 1, h);
    }
    AccountedStep(run.states[k - 1], run.acts[k - 1], h);
  }

  // ---- when the worker becomes idle again ----

  /** Current, finalised, and no call left that could clear it. */
  ghost predicate Orphan(s: State, h: HandleId) {
    && s.current == Some(h) && h in s.tasks && s.tasks[h].finalized
    && forall x :: x in s.threads ==> Pen(s.threads[x]) != Some(h)
  }

  lemma OrphanStep(s: State, a: Act, h: HandleId)
    requires Inv(s) && Orphan(s, h) && Enabled(s, a)
    ensures Orphan(Do(s, a), h)
    ensures a.Peek? ==> Where(Do(s, a), a.x) == Done
    ensures a.Mark? && Where(s, a.x).h == h ==> Where(Do(s, a), a.x) == Done
  {
    forall x | x in Do(s, a).threads && Pen(Do(s, a).threads[x]) == Some(h)
      ensures false
    {
      PenComesFrom(s, a, x);
    }
  }

  lemma {:induction false} OrphansStay(run: WorkerRun, i: nat, k: nat, h: HandleId)
    requires Valid(run) && i <= k <= |run.acts| && Orphan(run.states[i], h)
    ensures Orphan(run.states[k], h)
    decreases k
  {
    if i < k {
      OrphansStay(run, i, k - 1, h);
      ReachableInv(run, k - 1);
      assert ActAt(run, k - 1);
      OrphanStep(run.states[k - 1], run.acts[k - 1], h);
    }
  }

  /** Seen from inside the worker, the RPC's answer decides: on success the call's next step clears
      the state; on any other answer the handle stays current for the rest of the run, every later
      ClaimNext says a task is already claimed, and every later finalise that it is already
      finalised. What decides the answer is the store's guard: see module Wedging. */
  lemma AnswerDecides(run: WorkerRun, k: nat, x: Thread, h: HandleId, kind: Kind, ok: bool, m: nat)
    requires Valid(run) && k < m < |run.acts| && run.acts[k] == Reply(x, ok)
    requires Where(run.states[k], x) == Replying(h, kind) && kind != Drop
    ensures ok ==> Enabled(run.states[k + 1], Clear(x)) && Do(run.states[k + 1], Clear(x)).current == None
    ensures !ok ==> run.states[m].current == Some(h)
    ensures !ok && run.acts[m].Peek? ==> Where(run.states[m + 1], run.acts[m].x) == Done
    ensures !ok && run.acts[m].Mark? && Pen(Where(run.states[m], run.acts[m].x)) == None ==>
              run.states[m + 1] == run.states[m].(threads := run.states[m].threads[run.acts[m].x := Done])
  {
    assert ActAt(run, k);
    ReachableInv(run, k);
    assert PcInv(run.states[k], run.states[k].threads[x]);
    if !ok {
      assert Orphan(run.states[k + 1], h);
      OrphansStay(run, k + 1, m, h);
      ReachableInv(run, m);
      assert ActAt(run, m);
      OrphanStep(run.states[m], run.acts[m], h);
      if run.acts[m].Mark? {
        assert PcInv(run.states[m], run.states[m].threads[run.acts[m].x]);
      }
    }
  }
}
