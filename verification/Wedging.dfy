// When finalising a task leaves a worker idle again, and when it leaves it stuck for good.

module Wedging {
  import opened Tasks
  import opened Fleet
  import Machine
  import W = Worker

  /** The finalising call of the current handle h has been sent, and can no longer end in a clear:
      its request is gone, no thread is clearing, and no answer is left with a thread to take it. */
  ghost predicate Wedged(f: Fleet, w: WorkerId, h: W.HandleId) {
    && SentBy(f, w, h) && f.workers[w].current == Some(h)
    && (forall k :: FinalRequest(w, h, k) !in f.requests)
    && (forall x :: W.Where(f.workers[w], x) != W.Clearing(h))
    && (FinalAnswer(w, h) !in f.answers || !Awaited(f.workers[w], h))
  }

  /** Some call is still waiting for the answer to the finalising request of h. */
  predicate Awaited(s: W.State, h: W.HandleId) {
    exists x :: x in s.threads && s.threads[x].Replying? && s.threads[x].h == h
  }

  lemma CurrentStays(s: W.State, a: W.Act, h: W.HandleId)
    requires W.Enabled(s, a) && s.current == Some(h)
    requires a.Clear? ==> W.PcInv(s, s.threads[a.x]) && s.threads[a.x] != W.Clearing(h)
    ensures W.Do(s, a).current == Some(h)
  {
  }

  /** Only sending makes a call wait, and a handle is sent once. */
  lemma SentIsNotAwaitedAnew(s: W.State, a: W.Act, h: W.HandleId)
    requires W.Enabled(s, a) && h in s.tasks && s.tasks[h].sends == 1
    requires a.Send? ==> W.PcInv(s, s.threads[a.x])
    ensures Awaited(W.Do(s, a), h) ==> Awaited(s, h)
  {
    if Awaited(W.Do(s, a), h) {
      var x :| x in W.Do(s, a).threads && W.Do(s, a).threads[x].Replying? && W.Do(s, a).threads[x].h == h;
      assert x in s.threads && s.threads[x] == W.Do(s, a).threads[x];
    }
  }

  lemma WorkerStaysWedged(f: Fleet, p: Step, w: WorkerId, h: W.HandleId)
    requires Machine.Valid(f.run) && WorkersInv(f) && CanStep(f, p) && Wedged(f, w, h)
    ensures SentBy(Next(f, p), w, h) && Next(f, p).workers[w].current == Some(h)
    ensures Awaited(Next(f, p).workers[w], h) ==> Awaited(f.workers[w], h)
  {
    HandleStays(f, p, w, h);
    StepMoves(f, p);
    if Moved(f, p).Some? && Moved(f, p).value.0 == w {
      CurrentStays(f.workers[w], Moved(f, p).value.1, h);
      SentIsNotAwaitedAnew(f.workers[w], Moved(f, p).value.1, h);
    }
  }

  lemma WedgedStep(f: Fleet, p: Step, w: WorkerId, h: W.HandleId)
    requires FleetInv(f) && CanStep(f, p) && Wedged(f, w, h)
    ensures Wedged(Next(f, p), w, h)
  {
    var g := Next(f, p);
    WorkerStaysWedged(f, p, w, h);
    forall k
      ensures FinalRequest(w, h, k) !in g.requests
    {
      if FinalRequest(w, h, k) in g.requests {
        RequestIsOldOrNew(f, p, w, h, k);
      }
    }
    forall x
      ensures W.Where(g.workers[w], x) != W.Clearing(h)
    {
      if W.Where(g.workers[w], x) == W.Clearing(h) {
        ClearingIsOldOrNew(f, p, w, x, h);
      }
    }
    if FinalAnswer(w, h) in g.answers {
      StepAnswers(f, p, FinalAnswer(w, h));
    }
  }

  /** A wedged worker is wedged for good: whatever workers, store and network do, its current handle
      never leaves, though it is finalised and can send nothing more. */
  lemma {:induction false} WedgedForGood(f: Fleet, steps: seq<Step>, g: Fleet, w: WorkerId, h: W.HandleId)
    requires FleetInv(f) && Steps(f, steps, g) && Wedged(f, w, h)
    ensures Wedged(g, w, h) && g.workers[w].tasks[h].finalized
    decreases |steps|
  {
    if steps == [] {
      assert W.HandleInv(f.workers[w], h);
    } else {
      WedgedStep(f, steps[0], w, h);
      StepKeepsFleetInv(f, steps[0]);
      WedgedForGood(Next(f, steps[0]), steps[1..], g, w, h);
    }
  }

  /** The worker can still come to hold something else than h, or nothing. */
  ghost predicate CanLetGo(f: Fleet, w: WorkerId, h: W.HandleId)
    requires Machine.Valid(f.run)
  {
    exists steps, g :: Steps(f, steps, g) && w in g.workers && g.workers[w].current != Some(h)
  }

  /** What the store looks at: the caller owns the task, and to open a pull request it has also
      started on it (a claim alone is not enough) and gives a URL. */
  predicate StoreWouldAccept(s: Machine.Db, w: WorkerId, t: TaskId, kind: W.Kind) {
    Machine.Owns(s, w, t) && (kind.OpenPR? ==> s.rows[t].status.InProgress? && kind.url != "")
  }

  lemma OkThenClear(s: W.State, x: W.Thread, h: W.HandleId)
    requires W.Inv(s) && s.current == Some(h) && W.Where(s, x).Replying? && W.Where(s, x).h == h
    ensures W.Enabled(s, W.Reply(x, true))
    ensures var s' := W.Do(s, W.Reply(x, true));
            W.Enabled(s', W.Clear(x)) && W.Do(s', W.Clear(x)).current == None
  {
    assert W.PcInv(s, s.threads[x]);
  }

  lemma OkIsCleared(f: Fleet, w: WorkerId, x: W.Thread, h: W.HandleId)
    requires Machine.Valid(f.run) && w in f.workers && W.Inv(f.workers[w]) && f.workers[w].current == Some(h)
    requires W.Where(f.workers[w], x).Replying? && W.Where(f.workers[w], x).h == h && FinalAnswer(w, h) in f.answers
    ensures CanStep(f, ReceiveOk(w, x)) && Next(f, ReceiveOk(w, x)).run == f.run
    ensures var f', q := Next(f, ReceiveOk(w, x)), Local(w, W.Clear(x));
            CanStep(f', q) && w in Next(f', q).workers && Next(f', q).workers[w].current == None
  {
    OkThenClear(f.workers[w], x, h);
    var f' := Next(f, ReceiveOk(w, x));
    assert f'.workers[w] == W.Do(f.workers[w], W.Reply(x, true));
  }

  lemma OneStep(f: Fleet, p: Step)
    requires Machine.Valid(f.run) && CanStep(f, p)
    ensures Machine.Valid(Next(f, p).run) && Steps(f, [p], Next(f, p))
  {
    HistoryGrows(f, p);
    assert Steps(Next(f, p), [], Next(f, p));
  }

  lemma TwoSteps(f: Fleet, p: Step, q: Step)
    requires Machine.Valid(f.run) && CanStep(f, p) && Machine.Valid(Next(f, p).run) && CanStep(Next(f, p), q)
    ensures Machine.Valid(Next(Next(f, p), q).run) && Steps(f, [p, q], Next(Next(f, p), q))
  {
    OneStep(Next(f, p), q);
    assert [p, q][1..] == [q];
  }

  lemma AnswerIsTaken(f: Fleet, w: WorkerId, h: W.HandleId)
    requires Machine.Valid(f.run) && w in f.workers && W.Inv(f.workers[w]) && f.workers[w].current == Some(h)
    requires FinalAnswer(w, h) in f.answers && Awaited(f.workers[w], h)
    ensures CanLetGo(f, w, h)
  {
    var x :| x in f.workers[w].threads && f.workers[w].threads[x].Replying? && f.workers[w].threads[x].h == h;
    OkIsCleared(f, w, x, h);
    TwoSteps(f, ReceiveOk(w, x), Local(w, W.Clear(x)));
    LetGoBy(f, [ReceiveOk(w, x), Local(w, W.Clear(x))], Next(Next(f, ReceiveOk(w, x)), Local(w, W.Clear(x))), w, h);
  }

  lemma LetGoBy(f: Fleet, steps: seq<Step>, g: Fleet, w: WorkerId, h: W.HandleId)
    requires Machine.Valid(f.run) && Steps(f, steps, g) && w in g.workers && g.workers[w].current != Some(h)
    ensures CanLetGo(f, w, h)
  {
  }

  lemma GuardIsAcceptance(s: Machine.Db, w: WorkerId, t: TaskId, kind: W.Kind)
    ensures StoreWouldAccept(s, w, t, kind) <==> Machine.Accepts(s, Final(w, t, kind))
  {
  }

  /** While its request is still on the way, a finalising call has no answer and nothing to clear. */
  lemma UnservedIsUnanswered(f: Fleet, w: WorkerId, h: W.HandleId, kind: W.Kind)
    requires FleetInv(f) && FinalRequest(w, h, kind) in f.requests
    ensures SentBy(f, w, h) && FinalAnswer(w, h) !in f.answers
    ensures forall x :: W.Where(f.workers[w], x) != W.Clearing(h)
    ensures forall k :: FinalRequest(w, h, k) in f.requests ==> k == kind
  {
  }

  /** What serving a finalising request does to everything but the store. */
  lemma ServeFinalOutside(f: Fleet, w: WorkerId, h: W.HandleId, kind: W.Kind)
    requires Machine.Valid(f.run) && CanStep(f, ServeFinal(w, h, kind))
    ensures var g := Next(f, ServeFinal(w, h, kind));
            && g.workers == f.workers && g.requests == f.requests - {FinalRequest(w, h, kind)}
            && g.answers == f.answers + (if StoreWouldAccept(Now(f), w, f.workers[w].tasks[h].task, kind)
                                         then {FinalAnswer(w, h)} else {})
  {
    GuardIsAcceptance(Now(f), w, f.workers[w].tasks[h].task, kind);
  }

  lemma ServedInVain(f: Fleet, w: WorkerId, h: W.HandleId, kind: W.Kind)
    requires FleetInv(f) && CanStep(f, ServeFinal(w, h, kind)) && f.workers[w].current == Some(h)
    requires !(Awaited(f.workers[w], h)
               && StoreWouldAccept(Now(f), w, f.workers[w].tasks[h].task, kind))
    ensures Wedged(Next(f, ServeFinal(w, h, kind)), w, h)
  {
    UnservedIsUnanswered(f, w, h, kind);
    ServeFinalOutside(f, w, h, kind);
  }

  lemma ServedInTime(f: Fleet, w: WorkerId, h: W.HandleId, kind: W.Kind)
    requires FleetInv(f) && CanStep(f, ServeFinal(w, h, kind)) && f.workers[w].current == Some(h)
    requires Awaited(f.workers[w], h) && StoreWouldAccept(Now(f), w, f.workers[w].tasks[h].task, kind)
    ensures Machine.Valid(Next(f, ServeFinal(w, h, kind)).run)
    ensures CanLetGo(Next(f, ServeFinal(w, h, kind)), w, h)
  {
    var g := Next(f, ServeFinal(w, h, kind));
    ServeFinalOutside(f, w, h, kind);
    HistoryGrows(f, ServeFinal(w, h, kind));
    AnswerIsTaken(g, w, h);
  }

  lemma WedgedCannotLetGo(f: Fleet, w: WorkerId, h: W.HandleId)
    requires FleetInv(f) && Wedged(f, w, h)
    ensures !CanLetGo(f, w, h)
  {
    forall steps, g | Steps(f, steps, g)
      ensures w in g.workers && g.workers[w].current == Some(h)
    {
      WedgedForGood(f, steps, g, w, h);
    }
  }

  /** Finalising leaves the worker idle again exactly when the store accepts the call: when a
      finalising request of w's current handle is served, the worker can ever let go of that handle
      if and only if the caller still waits for the answer and the store's guard holds. So an
      open_pr on a task that is claimed but not yet in progress, or any finalise on a task the worker
      has lost, leaves the worker stuck for the rest of the run. */
  lemma IdleAgainIffAccepted(f: Fleet, w: WorkerId, h: W.HandleId, kind: W.Kind)
    requires FleetInv(f) && CanStep(f, ServeFinal(w, h, kind)) && f.workers[w].current == Some(h)
    ensures Machine.Valid(Next(f, ServeFinal(w, h, kind)).run)
    ensures CanLetGo(Next(f, ServeFinal(w, h, kind)), w, h) <==>
            Awaited(f.workers[w], h) && StoreWouldAccept(Now(f), w, f.workers[w].tasks[h].task, kind)
  {
    if Awaited(f.workers[w], h) && StoreWouldAccept(Now(f), w, f.workers[w].tasks[h].task, kind) {
      ServedInTime(f, w, h, kind);
    } else {
      ServedInVain(f, w, h, kind);
      StepKeepsFleetInv(f, ServeFinal(w, h, kind));
      WedgedCannotLetGo(Next(f, ServeFinal(w, h, kind)), w, h);
    }
  }

  /** The network can do it too: a finalising request of the current handle that is lost. */
  lemma LostRequestWedges(f: Fleet, w: WorkerId, h: W.HandleId, kind: W.Kind)
    requires FleetInv(f) && FinalRequest(w, h, kind) in f.requests && f.workers[w].current == Some(h)
    ensures Machine.Valid(Next(f, LoseRequest(FinalRequest(w, h, kind))).run)
    ensures !CanLetGo(Next(f, LoseRequest(FinalRequest(w, h, kind))), w, h)
  {
    UnservedIsUnanswered(f, w, h, kind);
    StepKeepsFleetInv(f, LoseRequest(FinalRequest(w, h, kind)));
    WedgedCannotLetGo(Next(f, LoseRequest(FinalRequest(w, h, kind))), w, h);
  }

  // ---- a worker stuck with nothing lost ----

  lemma {:induction false} StepsThen(f: Fleet, steps: seq<Step>, g: Fleet, p: Step)
    requires Machine.Valid(f.run) && Steps(f, steps, g) && Machine.Valid(g.run) && CanStep(g, p)
    ensures Steps(f, steps + [p], Next(g, p))
    decreases |steps|
  {
    HistoryGrows(g, p);
    if steps == [] {
      assert [] + [p] == [p];
      assert Steps(Next(g, p), [], Next(g, p));
    } else {
      StepsThen(Next(f, steps[0]), steps[1..], g, p);
      assert (steps + [p])[1..] == steps[1..] + [p];
    }
  }

  lemma Onward(f: Fleet, p: Step) returns (g: Fleet)
    requires Reachable(f) && Machine.Valid(f.run) && CanStep(f, p)
    ensures g == Next(f, p) && Reachable(g) && Machine.Valid(g.run)
  {
    g := Next(f, p);
    HistoryGrows(f, p);
    var now, steps :| Steps(Started(now), steps, f);
    StepsThen(Started(now), steps, f, p);
  }

  /** The only worker takes a step of its own. */
  lemma Move(f: Fleet, s: W.State, a: W.Act, s': W.State) returns (g: Fleet)
    requires Reachable(f) && Machine.Valid(f.run) && f.workers == map["w" := s]
    requires W.Enabled(s, a) && W.Do(s, a) == s' && !a.ClaimArrives? && !a.Reply?
    ensures Reachable(g) && g.workers == map["w" := s'] && g.requests == f.requests + Emitted("w", s, a)
    ensures g.run == f.run && g.answers == f.answers
  {
    g := Onward(f, Local("w", a));
  }

  /** Task 7 is in the store, and worker "w" has joined. */
  lemma TaskStored() returns (f: Fleet)
    ensures Reachable(f) && Machine.Valid(f.run)
    ensures f.workers == map["w" := W.IDLE_STATE] && f.requests == {} && f.answers == {}
    ensures Machine.BestEligible(Now(f).rows, Now(f).now, 7)
  {
    f := Started(0);
    assert Steps(Started(0), [], f);
    f := Onward(f, StoreCall(Machine.Create(7, NewTask("n", "p", true, 0, 3, None, None, None))));
    f := Onward(f, Join("w"));
  }

  lemma ClaimCalled() returns (f: Fleet)
    ensures Reachable(f) && Machine.Valid(f.run)
    ensures f.workers == map["w" := W.State(None, None, map[], map[0 := W.ClaimCalling])]
    ensures f.requests == {ClaimRequest("w", 0)} && f.answers == {}
    ensures Machine.BestEligible(Now(f).rows, Now(f).now, 7)
  {
    f := TaskStored();
    var called := W.State(None, None, map[], map[0 := W.ClaimStart]);
    f := Move(f, W.IDLE_STATE, W.CallClaimNext(0), called);
    f := Move(f, called, W.Peek(0), W.State(None, None, map[], map[0 := W.ClaimCalling]));
  }

  lemma ClaimServed() returns (f: Fleet)
    ensures Reachable(f) && Machine.Valid(f.run)
    ensures f.workers == map["w" := W.State(None, None, map[], map[0 := W.ClaimCalling])]
    ensures f.requests == {} && f.answers == {ClaimAnswer("w", 0, 7)}
    ensures Machine.Owns(Now(f), "w", 7) && Now(f).rows[7].status.Claimed?
  {
    f := ClaimCalled();
    f := Onward(f, ServeClaim("w", 0, 7));
  }

  /** The claim has been served, and its answer has arrived. */
  lemma ClaimReceived() returns (f: Fleet)
    ensures Reachable(f) && Machine.Valid(f.run)
    ensures f.workers == map["w" := W.State(None, None, map[0 := W.Fresh(7)], map[0 := W.ClaimReturned(0)])]
    ensures f.requests == {} && f.answers == {}
    ensures Machine.Owns(Now(f), "w", 7) && Now(f).rows[7].status.Claimed?
  {
    f := ClaimServed();
    var s := f.workers["w"];
    assert W.Do(s, W.ClaimArrives(0, 0, 7)) == W.State(None, None, map[0 := W.Fresh(7)], map[0 := W.ClaimReturned(0)]);
    f := Onward(f, ReceiveTask("w", 0, 7, 0));
  }

  /** The worker of the example, holding handle 0 in the given condition, thread 2 at `pc`. */
  function Holding(t: W.Handle, pc: W.Pc): W.State {
    W.State(Some(0), Some(0), map[0 := t], map[0 := W.Done, 2 := pc])
  }

  lemma OpenPRCalled() returns (f: Fleet)
    ensures Reachable(f) && Machine.Valid(f.run) && f.requests == {} && f.answers == {}
    ensures f.workers
            == map["w" := Holding(W.Handle(7, false, true, false, W.Idle, 0), W.Entering(W.OpenPR("u"), None))]
    ensures Machine.Owns(Now(f), "w", 7) && Now(f).rows[7].status.Claimed?
  {
    f := ClaimReceived();
    var t := W.Handle(7, false, true, false, W.Idle, 0);
    var held := W.State(Some(0), Some(0), map[0 := t], map[0 := W.Done]);
    f := Move(f, W.State(None, None, map[0 := W.Fresh(7)], map[0 := W.ClaimReturned(0)]), W.Publish(0, 1), held);
    f := Move(f, held, W.CallFinalize(2, W.OpenPR("u"), None), Holding(t, W.Entering(W.OpenPR("u"), None)));
  }

  lemma OpenPRCancels() returns (f: Fleet)
    ensures Reachable(f) && Machine.Valid(f.run) && f.requests == {} && f.answers == {}
    ensures f.workers == map["w" := Holding(W.Handle(7, true, false, false, W.Idle, 0), W.Cancelling(0, W.OpenPR("u")))]
    ensures Machine.Owns(Now(f), "w", 7) && Now(f).rows[7].status.Claimed?
  {
    f := OpenPRCalled();
    var t := W.Handle(7, false, true, false, W.Idle, 0);
    f := Move(f, Holding(t, W.Entering(W.OpenPR("u"), None)), W.Require(2), Holding(t, W.Marking(0, W.OpenPR("u"))));
    f := Move(f, Holding(t, W.Marking(0, W.OpenPR("u"))), W.Mark(2),
              Holding(W.Handle(7, true, false, false, W.Idle, 0), W.Cancelling(0, W.OpenPR("u"))));
  }

  lemma OpenPRAwaits() returns (f: Fleet)
    ensures Reachable(f) && Machine.Valid(f.run) && f.requests == {} && f.answers == {}
    ensures f.workers == map["w" := Holding(W.Handle(7, true, false, true, W.Exited, 0), W.Awaiting(0, W.OpenPR("u")))]
    ensures Machine.Owns(Now(f), "w", 7) && Now(f).rows[7].status.Claimed?
  {
    f := OpenPRCancels();
    var t := W.Handle(7, true, false, true, W.Idle, 0);
    f := Move(f, Holding(t.(cancelled := false), W.Cancelling(0, W.OpenPR("u"))), W.Cancel(2),
              Holding(t, W.Awaiting(0, W.OpenPR("u"))));
    f := Move(f, Holding(t, W.Awaiting(0, W.OpenPR("u"))), W.BeatExits(0),
              Holding(t.(beat := W.Exited), W.Awaiting(0, W.OpenPR("u"))));
  }

  lemma OpenPRSends() returns (f: Fleet)
    ensures Reachable(f) && Machine.Valid(f.run) && f.requests == {} && f.answers == {}
    ensures f.workers == map["w" := Holding(W.Handle(7, true, false, true, W.Exited, 0), W.Sending(0, W.OpenPR("u")))]
    ensures Machine.Owns(Now(f), "w", 7) && Now(f).rows[7].status.Claimed?
  {
    f := OpenPRAwaits();
    var t := W.Handle(7, true, false, true, W.Exited, 0);
    f := Move(f, Holding(t, W.Awaiting(0, W.OpenPR("u"))), W.Await(2), Holding(t, W.Sending(0, W.OpenPR("u"))));
  }

  lemma OpenPRSent() returns (f: Fleet)
    ensures Reachable(f) && Machine.Valid(f.run)
    ensures f.workers == map["w" := Holding(W.Handle(7, true, false, true, W.Exited, 1), W.Replying(0, W.OpenPR("u")))]
    ensures f.requests == {FinalRequest("w", 0, W.OpenPR("u"))}
    ensures Machine.Owns(Now(f), "w", 7) && Now(f).rows[7].status.Claimed?
  {
    f := OpenPRSends();
    var t := W.Handle(7, true, false, true, W.Exited, 0);
    f := Move(f, Holding(t, W.Sending(0, W.OpenPR("u"))), W.Send(2),
              Holding(t.(sends := 1), W.Replying(0, W.OpenPR("u"))));
  }

  /** A worker claims a task and calls open_pr before the first heartbeat, progress note or log line:
      no message is lost, the store still has the task claimed by this worker, and the refusal leaves
      the worker stuck with it for good. */
  lemma EarlyOpenPRWedges() returns (f: Fleet, g: Fleet)
    ensures Reachable(f) && Machine.Valid(f.run) && "w" in f.workers && f.workers["w"].current == Some(0)
    ensures CanStep(f, ServeFinal("w", 0, W.OpenPR("u"))) && g == Next(f, ServeFinal("w", 0, W.OpenPR("u")))
    ensures Awaited(f.workers["w"], 0)
    ensures Machine.Valid(g.run) && Machine.Owns(Now(g), "w", 7) && Now(g).rows[7].status.Claimed?
    ensures !CanLetGo(g, "w", 0)
  {
    f := OpenPRSent();
    assert f.workers["w"].threads[2].Replying?;
    ReachableFleetInv(f);
    IdleAgainIffAccepted(f, "w", 0, W.OpenPR("u"));
    g := Next(f, ServeFinal("w", 0, W.OpenPR("u")));
    GuardIsAcceptance(Now(f), "w", 7, W.OpenPR("u"));
  }
}
