// From a call on a worker to the row in the store: what the agent asked for is what happens to the
// task, whatever is delayed or lost on the way.

module Calls {
  import opened Tasks
  import opened Leases
  import opened Fleet
  import Machine
  import W = Worker

  // ---- what each kind of call does to the row ----

  ghost predicate AttemptEnds(r: Task, r': Task, now: Time, message: string) {
    && r'.lastError == Some(message)
    && if r.attempts < r.maxAttempts then
         && r'.status == Pending && r'.scheduledFor == Some(now + r.attempts * 30_000_000)
         && r'.claimedBy == None && r'.claimedAt == None && r'.heartbeatAt == None
       else
         && r'.status == Failed && r'.scheduledFor == r.scheduledFor && r'.claimedBy == r.claimedBy
  }

  /** r was turned into r' at time `now` as the call of this kind promises. */
  ghost predicate Done(kind: W.Kind, now: Time, r: Task, r': Task) {
    && r'.name == r.name && r'.payload == r.payload && r'.priority == r.priority
    && r'.attempts == r.attempts && r'.maxAttempts == r.maxAttempts
    && match kind
       case Complete => r'.status == Completed && r'.completedAt == Some(now) && r'.lastError == None
       case Fail(message) => AttemptEnds(r, r', now, message)
       case Drop => AttemptEnds(r, r', now, "worker.mcp: dropped due to concurrent claim race")
       case OpenPR(url) =>
         && r.status == InProgress && r'.status == PROpened && url != "" && r'.prUrl == Some(url)
         && r'.claimedBy == None && r'.claimedAt == None && r'.heartbeatAt == None
  }

  lemma FinalIsDone(s: Machine.Db, w: WorkerId, t: TaskId, kind: W.Kind)
    requires Machine.Accepts(s, Final(w, t, kind))
    ensures t in s.rows && t in Machine.Apply(s, Final(w, t, kind)).rows
    ensures Done(kind, s.now, s.rows[t], Machine.Apply(s, Final(w, t, kind)).rows[t])
  {
    Machine.RowAfter(s, Final(w, t, kind), Machine.Apply(s, Final(w, t, kind)), t);
  }

  /** At step j of the history, the row of the event's task changed as the kind promises. */
  ghost predicate DoneAt(run: Machine.Run, j: nat, kind: W.Kind)
    requires |run.states| == |run.events| + 1
  {
    j < |run.events| && EndsHold(run.events[j])
    && var t := run.events[j].task;
       t in run.states[j].rows && t in run.states[j + 1].rows
       && Done(kind, run.states[j].now, run.states[j].rows[t], run.states[j + 1].rows[t])
  }

  // ---- who asked for it ----

  /** Among these steps, thread x of w was started to do this, to this task if it named one; a drop
      by a call that came back with a task and found another one held. */
  ghost predicate AskedBy(past: seq<Step>, w: WorkerId, x: W.Thread, kind: W.Kind, t: TaskId) {
    if kind.Drop? then exists y :: Local(w, W.Publish(y, x)) in past
    else exists wanted: Option<TaskId> ::
           Local(w, W.CallFinalize(x, kind, wanted)) in past && (wanted.Some? ==> wanted.value == t)
  }

  ghost predicate Asked(past: seq<Step>, w: WorkerId, kind: W.Kind, t: TaskId) {
    exists x :: AskedBy(past, w, x, kind, t)
  }

  lemma AskedStays(past: seq<Step>, p: Step, w: WorkerId, x: W.Thread, kind: W.Kind, t: TaskId)
    requires AskedBy(past, w, x, kind, t)
    ensures AskedBy(past + [p], w, x, kind, t)
  {
    if kind.Drop? {
      var y :| Local(w, W.Publish(y, x)) in past;
      assert Local(w, W.Publish(y, x)) in past + [p];
    } else {
      var wanted: Option<TaskId> :|
        Local(w, W.CallFinalize(x, kind, wanted)) in past && (wanted.Some? ==> wanted.value == t);
      assert Local(w, W.CallFinalize(x, kind, wanted)) in past + [p];
    }
  }

  /** A thread stands where it does because it was asked to. */
  ghost predicate PcAsked(s: W.State, past: seq<Step>, w: WorkerId, x: W.Thread) {
    var pc := W.Where(s, x);
    && (pc.Entering? ==> pc.kind != W.Drop && Local(w, W.CallFinalize(x, pc.kind, pc.wanted)) in past)
    && (pc.Marking? || W.InFinalize(pc) ==> pc.h in s.tasks && AskedBy(past, w, x, pc.kind, s.tasks[pc.h].task))
  }

  /** How a thread comes to drive a handle with a purpose: it did before, it has just been handed the
      current handle, or it was spawned to drop one. */
  lemma PurposeComesFrom(s: W.State, a: W.Act, x: W.Thread)
    requires W.Enabled(s, a)
    requires var pc := W.Where(W.Do(s, a), x); pc.Marking? || W.InFinalize(pc)
    ensures var pc, pc' := W.Where(s, x), W.Where(W.Do(s, a), x);
            || ((pc.Marking? || W.InFinalize(pc)) && pc'.h == pc.h && pc'.kind == pc.kind)
            || (a == W.Require(x) && pc.Entering? && pc'.kind == pc.kind && s.current == Some(pc'.h)
                && pc'.h in s.tasks && (pc.wanted.Some? ==> pc.wanted.value == s.tasks[pc'.h].task))
            || (a.Publish? && a.dropper == x && pc'.kind == W.Drop && pc'.h in s.tasks)
  {
  }

  lemma EnteringComesFrom(s: W.State, a: W.Act, x: W.Thread)
    requires W.Enabled(s, a) && W.Where(W.Do(s, a), x).Entering?
    ensures W.Where(s, x) == W.Where(W.Do(s, a), x)
            || (a == W.CallFinalize(x, W.Where(W.Do(s, a), x).kind, W.Where(W.Do(s, a), x).wanted)
                && W.Where(W.Do(s, a), x).kind != W.Drop)
  {
  }

  lemma PcStaysAsked(s: W.State, a: W.Act, past: seq<Step>, p: Step, w: WorkerId, x: W.Thread)
    requires W.Enabled(s, a) && PcAsked(s, past, w, x)
    requires a.CallFinalize? || a.Publish? ==> p == Local(w, a)
    ensures PcAsked(W.Do(s, a), past + [p], w, x)
  {
    var pc, pc' := W.Where(s, x), W.Where(W.Do(s, a), x);
    assert p in past + [p];
    if pc'.Entering? {
      EnteringComesFrom(s, a, x);
    }
    if pc'.Marking? || W.InFinalize(pc') {
      PurposeComesFrom(s, a, x);
      LocalKeepsHandles(s, a, pc'.h);
      if pc.Marking? || W.InFinalize(pc) {
        AskedStays(past, p, w, x, pc.kind, s.tasks[pc.h].task);
      } else if pc.Entering? {
        assert AskedBy(past, w, x, pc.kind, s.tasks[pc'.h].task);
        AskedStays(past, p, w, x, pc.kind, s.tasks[pc'.h].task);
      }
    }
  }

  // ---- the invariant ----

  ghost predicate PcsAsked(f: Fleet, past: seq<Step>) {
    forall w, x :: w in f.workers ==> PcAsked(f.workers[w], past, w, x)
  }

  ghost predicate RequestsAsked(f: Fleet, past: seq<Step>) {
    forall w, h, kind :: FinalRequest(w, h, kind) in f.requests ==>
      w in f.workers && h in f.workers[w].tasks && Asked(past, w, kind, f.workers[w].tasks[h].task)
  }

  ghost predicate GiveUpsAsked(f: Fleet, past: seq<Step>)
    requires |f.run.states| == |f.run.events| + 1
  {
    forall j :: j in f.senders ==>
      DoneAt(f.run, j, f.senders[j].kind)
      && Asked(past, f.run.events[j].worker, f.senders[j].kind, f.run.events[j].task)
  }

  /** A call that waits for its answer waits for the answer to what it asked. */
  ghost predicate WaitersAgree(f: Fleet) {
    forall w, x, h, kind :: w in f.workers && W.Where(f.workers[w], x) == W.Replying(h, kind) ==>
      && (forall k :: FinalRequest(w, h, k) in f.requests ==> k == kind)
      && (forall j :: ServedAt(f, j, w, h) ==> f.senders[j].kind == kind)
  }

  ghost predicate CallsInv(f: Fleet, past: seq<Step>) {
    FleetInv(f) && PcsAsked(f, past) && RequestsAsked(f, past) && GiveUpsAsked(f, past) && WaitersAgree(f)
  }

  lemma StepKeepsPcs(f: Fleet, past: seq<Step>, p: Step)
    requires Machine.Valid(f.run) && PcsAsked(f, past) && CanStep(f, p)
    ensures PcsAsked(Next(f, p), past + [p])
  {
    StepMoves(f, p);
    forall w, x | w in Next(f, p).workers
      ensures PcAsked(Next(f, p).workers[w], past + [p], w, x)
    {
      if w in f.workers {
        if Moved(f, p).Some? && Moved(f, p).value.0 == w {
          PcStaysAsked(f.workers[w], Moved(f, p).value.1, past, p, w, x);
        } else {
          UnmovedStaysAsked(f.workers[w], past, p, w, x);
        }
      }
    }
  }

  lemma UnmovedStaysAsked(s: W.State, past: seq<Step>, p: Step, w: WorkerId, x: W.Thread)
    requires PcAsked(s, past, w, x)
    ensures PcAsked(s, past + [p], w, x)
  {
    var pc := W.Where(s, x);
    if pc.Marking? || W.InFinalize(pc) {
      AskedStays(past, p, w, x, pc.kind, s.tasks[pc.h].task);
    }
  }

  lemma StepKeepsRequestsAsked(f: Fleet, past: seq<Step>, p: Step)
    requires Machine.Valid(f.run) && WorkersInv(f) && PcsAsked(f, past) && RequestsAsked(f, past) && CanStep(f, p)
    ensures RequestsAsked(Next(f, p), past + [p])
  {
    forall w, h, kind | FinalRequest(w, h, kind) in Next(f, p).requests
      ensures w in Next(f, p).workers && h in Next(f, p).workers[w].tasks
              && Asked(past + [p], w, kind, Next(f, p).workers[w].tasks[h].task)
    {
      if FinalRequest(w, h, kind) in f.requests {
        HandleStays(f, p, w, h);
        var x :| AskedBy(past, w, x, kind, f.workers[w].tasks[h].task);
        AskedStays(past, p, w, x, kind, f.workers[w].tasks[h].task);
      } else {
        SentIsAsked(f, past, p, w, h, kind);
      }
    }
  }

  lemma SentIsAsked(f: Fleet, past: seq<Step>, p: Step, w: WorkerId, h: W.HandleId, kind: W.Kind)
    requires Machine.Valid(f.run) && WorkersInv(f) && PcsAsked(f, past) && CanStep(f, p)
    requires FinalRequest(w, h, kind) in Next(f, p).requests && FinalRequest(w, h, kind) !in f.requests
    ensures w in Next(f, p).workers && h in Next(f, p).workers[w].tasks
    ensures Asked(past + [p], w, kind, Next(f, p).workers[w].tasks[h].task)
  {
    RequestComesFromSend(f, p, w, h, kind);
    var x := p.a.x;
    assert PcAsked(f.workers[w], past, w, x);
    HandleStays(f, p, w, h);
    AskedStays(past, p, w, x, kind, f.workers[w].tasks[h].task);
  }

  lemma RequestComesFromSend(f: Fleet, p: Step, w: WorkerId, h: W.HandleId, kind: W.Kind)
    requires Machine.Valid(f.run) && CanStep(f, p)
    requires FinalRequest(w, h, kind) in Next(f, p).requests && FinalRequest(w, h, kind) !in f.requests
    ensures p.Local? && p.worker == w && p.a.Send? && w in f.workers
    ensures W.Where(f.workers[w], p.a.x) == W.Sending(h, kind)
  {
  }

  /** What the store has been through does not change. */
  lemma PastIsKept(f: Fleet, p: Step)
    requires Machine.Valid(f.run) && CanStep(f, p)
    ensures Machine.Valid(Next(f, p).run)
    ensures f.run.events <= Next(f, p).run.events && f.run.states <= Next(f, p).run.states
  {
    HistoryGrows(f, p);
  }

  lemma StepKeepsGiveUpsAsked(f: Fleet, past: seq<Step>, p: Step)
    requires FleetInv(f) && RequestsAsked(f, past) && GiveUpsAsked(f, past) && CanStep(f, p)
    ensures Machine.Valid(Next(f, p).run) && GiveUpsAsked(Next(f, p), past + [p])
  {
    var g := Next(f, p);
    PastIsKept(f, p);
    forall j | j in g.senders
      ensures DoneAt(g.run, j, g.senders[j].kind)
      ensures Asked(past + [p], g.run.events[j].worker, g.senders[j].kind, g.run.events[j].task)
    {
      GiveUpIsOldOrNew(f, p, j);
      if p.ServeFinal? && j == |f.run.events| && j < |g.run.events| {
        NewGiveUpIsDone(f, past, p);
      } else {
        var e := f.run.events[j];
        assert DoneAt(f.run, j, f.senders[j].kind);
        var x :| AskedBy(past, e.worker, x, f.senders[j].kind, e.task);
        AskedStays(past, p, e.worker, x, f.senders[j].kind, e.task);
      }
    }
  }

  lemma NewGiveUpIsDone(f: Fleet, past: seq<Step>, p: Step)
    requires FleetInv(f) && RequestsAsked(f, past) && CanStep(f, p) && p.ServeFinal?
    requires |f.run.events| < |Next(f, p).run.events|
    ensures Machine.Valid(Next(f, p).run)
    ensures var g, j := Next(f, p), |f.run.events|;
            DoneAt(g.run, j, p.kind) && Asked(past + [p], g.run.events[j].worker, p.kind, g.run.events[j].task)
  {
    var t := f.workers[p.worker].tasks[p.h].task;
    PastIsKept(f, p);
    FinalIsDone(Now(f), p.worker, t, p.kind);
    var x :| AskedBy(past, p.worker, x, p.kind, t);
    AskedStays(past, p, p.worker, x, p.kind, t);
  }

  lemma ReplyingComesFrom(f: Fleet, p: Step, w: WorkerId, x: W.Thread, h: W.HandleId, kind: W.Kind)
    requires Machine.Valid(f.run) && CanStep(f, p)
    requires w in Next(f, p).workers && W.Where(Next(f, p).workers[w], x) == W.Replying(h, kind)
    ensures w in f.workers
    ensures W.Where(f.workers[w], x) == W.Replying(h, kind)
            || (p == Local(w, W.Send(x)) && W.Where(f.workers[w], x) == W.Sending(h, kind))
  {
    StepMoves(f, p);
  }

  lemma StepKeepsWaiters(f: Fleet, p: Step)
    requires FleetInv(f) && WaitersAgree(f) && CanStep(f, p)
    ensures WaitersAgree(Next(f, p))
  {
    var g := Next(f, p);
    forall w, x, h, kind | w in g.workers && W.Where(g.workers[w], x) == W.Replying(h, kind)
      ensures forall k :: FinalRequest(w, h, k) in g.requests ==> k == kind
      ensures forall j :: ServedAt(g, j, w, h) ==> g.senders[j].kind == kind
    {
      ReplyingComesFrom(f, p, w, x, h, kind);
      if p == Local(w, W.Send(x)) && W.Where(f.workers[w], x) == W.Sending(h, kind) {
        SenderAgrees(f, p, w, x, h, kind);
      } else {
        WaiterAgrees(f, p, w, x, h, kind);
      }
    }
  }

  lemma SenderAgrees(f: Fleet, p: Step, w: WorkerId, x: W.Thread, h: W.HandleId, kind: W.Kind)
    requires FleetInv(f) && p == Local(w, W.Send(x)) && CanStep(f, p)
    requires W.Where(f.workers[w], x) == W.Sending(h, kind)
    ensures forall k :: FinalRequest(w, h, k) in Next(f, p).requests ==> k == kind
    ensures forall j :: ServedAt(Next(f, p), j, w, h) ==> Next(f, p).senders[j].kind == kind
  {
    assert W.PcInv(f.workers[w], f.workers[w].threads[x]);
    assert !SentBy(f, w, h);
    forall k | FinalRequest(w, h, k) in Next(f, p).requests
      ensures k == kind
    {
      RequestIsOldOrNew(f, p, w, h, k);
    }
    forall j | ServedAt(Next(f, p), j, w, h)
      ensures false
    {
      ServedIsOldOrNew(f, p, j, w, h);
      ServedWasSent(f, j, w, h);
    }
  }

  lemma WaiterAgrees(f: Fleet, p: Step, w: WorkerId, x: W.Thread, h: W.HandleId, kind: W.Kind)
    requires FleetInv(f) && WaitersAgree(f) && CanStep(f, p) && w in f.workers
    requires W.Where(f.workers[w], x) == W.Replying(h, kind)
    ensures forall k :: FinalRequest(w, h, k) in Next(f, p).requests ==> k == kind
    ensures forall j :: ServedAt(Next(f, p), j, w, h) ==> Next(f, p).senders[j].kind == kind
  {
    assert W.PcInv(f.workers[w], f.workers[w].threads[x]);
    assert SentBy(f, w, h);
    forall k | FinalRequest(w, h, k) in Next(f, p).requests
      ensures k == kind
    {
      RequestIsOldOrNew(f, p, w, h, k);
    }
    forall j: nat | ServedAt(Next(f, p), j, w, h)
      ensures Next(f, p).senders[j].kind == kind
    {
      ServedIsOldOrNew(f, p, j, w, h);
      GiveUpIsOldOrNew(f, p, j);
    }
  }

  lemma StepKeepsCalls(f: Fleet, past: seq<Step>, p: Step)
    requires CallsInv(f, past) && CanStep(f, p)
    ensures CallsInv(Next(f, p), past + [p])
  {
    StepKeepsFleetInv(f, p);
    StepKeepsPcs(f, past, p);
    StepKeepsRequestsAsked(f, past, p);
    StepKeepsGiveUpsAsked(f, past, p);
    StepKeepsWaiters(f, p);
  }

  lemma {:induction false} StepsKeepCalls(f: Fleet, past: seq<Step>, steps: seq<Step>, g: Fleet)
    requires CallsInv(f, past) && Steps(f, steps, g)
    ensures CallsInv(g, past + steps)
    decreases |steps|
  {
    if steps == [] {
      assert past + steps == past;
    } else {
      StepKeepsCalls(f, past, steps[0]);
      StepsKeepCalls(Next(f, steps[0]), past + [steps[0]], steps[1..], g);
      assert past + [steps[0]] + steps[1..] == past + steps;
    }
  }

  lemma CallsHold(now: Time, steps: seq<Step>, f: Fleet)
    requires Steps(Started(now), steps, f)
    ensures CallsInv(f, steps)
  {
    assert CallsInv(Started(now), []);
    StepsKeepCalls(Started(now), [], steps, f);
    assert [] + steps == steps;
  }

  // ---- what follows ----

  /** Every hold given up in the store was given up by the call an agent made on that worker, of that
      kind, with that text, and on that task if the call named one (or by a call that lost the claim
      race, dropping its own); and the row changed exactly as a call of that kind promises. */
  lemma GiveUpIsWhatWasAsked(now: Time, steps: seq<Step>, f: Fleet, j: nat) returns (kind: W.Kind, x: W.Thread)
    requires Steps(Started(now), steps, f) && j < |f.run.events| && EndsHold(f.run.events[j])
    ensures |f.run.states| == |f.run.events| + 1
    ensures j in f.senders && f.senders[j].kind == kind
    ensures AskedBy(steps, f.run.events[j].worker, x, kind, f.run.events[j].task)
    ensures DoneAt(f.run, j, kind)
  {
    CallsHold(now, steps, f);
    kind := f.senders[j].kind;
    x :| AskedBy(steps, f.run.events[j].worker, x, kind, f.run.events[j].task);
  }

  /** A call that is told of success was carried out: the store has done to the task of its handle
      what this call, of this kind and with this text, promises. */
  lemma SuccessMeansDone(now: Time, steps: seq<Step>, f: Fleet, w: WorkerId, x: W.Thread) returns (j: nat)
    requires Steps(Started(now), steps, f) && Machine.Valid(f.run) && CanStep(f, ReceiveOk(w, x))
    ensures |f.run.states| == |f.run.events| + 1
    ensures var h, kind := W.Where(f.workers[w], x).h, W.Where(f.workers[w], x).kind;
            && DoneAt(f.run, j, kind) && f.run.events[j].worker == w
            && h in f.workers[w].tasks && f.run.events[j].task == f.workers[w].tasks[h].task
            && AskedBy(steps, w, x, kind, f.run.events[j].task)
  {
    CallsHold(now, steps, f);
    var h, kind := W.Where(f.workers[w], x).h, W.Where(f.workers[w], x).kind;
    j :| ServedAt(f, j, w, h);
    assert W.Where(f.workers[w], x) == W.Replying(h, kind);
    assert PcAsked(f.workers[w], steps, w, x);
  }
}
