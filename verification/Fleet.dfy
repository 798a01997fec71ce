// Any number of workers and one store, joined by a network that may delay or lose any request and
// any answer. A request outlives the call that made it: the store may serve it after the caller
// has given up waiting.

module Fleet {
  import opened Tasks
  import opened Machine
  import opened Leases
  import W = Worker

  datatype Request =
    | ClaimRequest(worker: WorkerId, x: W.Thread)
    | FinalRequest(worker: WorkerId, h: W.HandleId, kind: W.Kind)

  datatype Answer =
    | ClaimAnswer(worker: WorkerId, x: W.Thread, task: TaskId)
    | FinalAnswer(worker: WorkerId, h: W.HandleId)      // success; a failure is any other outcome

  datatype Sender = Sender(h: W.HandleId, kind: W.Kind)

  datatype Fleet = Fleet(
    workers: map<WorkerId, W.State>,
    requests: set<Request>,
    answers: set<Answer>,
    run: Run,                            // the store and its history
    senders: map<nat, Sender>            // which request each give-up in the history was
  )

  datatype Step =
    | Join(worker: WorkerId)                                         // worker ids are fresh UUIDs
    | Local(worker: WorkerId, a: W.Act)
    | ServeClaim(worker: WorkerId, x: W.Thread, task: TaskId)
    | ServeFinal(worker: WorkerId, h: W.HandleId, kind: W.Kind)
    | LoseRequest(request: Request)
    | LoseAnswer(answer: Answer)
    | ReceiveTask(worker: WorkerId, x: W.Thread, task: TaskId, h: W.HandleId)
    | ReceiveOk(worker: WorkerId, x: W.Thread)
    | StoreCall(e: Event)               // operators, the reaper, the clock, and lease refreshes

  function Now(f: Fleet): Db
    requires |f.run.states| == |f.run.events| + 1
  {
    f.run.states[|f.run.events|]
  }

  const DROPPED := "worker.mcp: dropped due to concurrent claim race"

  /** The store call a finalising request asks for. */
  function Final(w: WorkerId, t: TaskId, kind: W.Kind): Event {
    match kind
    case Complete => ReportSuccess(w, t)
    case OpenPR(url) => OpenPR(w, t, url)
    case Fail(message) => ReportFailure(w, t, message)
    case Drop => ReportFailure(w, t, DROPPED)
  }

  ghost predicate CanStep(f: Fleet, p: Step)
    requires Machine.Valid(f.run)
  {
    match p
    case Join(w) => w !in f.workers
    case Local(w, a) =>
      w in f.workers && W.Enabled(f.workers[w], a) && !a.ClaimArrives? && !(a.Reply? && a.ok)
    case ServeClaim(w, x, t) => ClaimRequest(w, x) in f.requests && Accepts(Now(f), Claim(w, t))
    case ServeFinal(w, h, kind) =>
      FinalRequest(w, h, kind) in f.requests && w in f.workers && h in f.workers[w].tasks
    case LoseRequest(r) => r in f.requests
    case LoseAnswer(r) => r in f.answers
    case ReceiveTask(w, x, t, h) =>
      ClaimAnswer(w, x, t) in f.answers && w in f.workers && W.Enabled(f.workers[w], W.ClaimArrives(x, h, t))
    case ReceiveOk(w, x) =>
      w in f.workers && W.Where(f.workers[w], x).Replying?
      && FinalAnswer(w, W.Where(f.workers[w], x).h) in f.answers
    case StoreCall(e) => Accepts(Now(f), e) && !e.Claim? && !EndsHold(e)
  }

  /** The request a worker's step puts on the network, if any. */
  function Emitted(w: WorkerId, s: W.State, a: W.Act): set<Request> {
    if a.Peek? && s.current.None? then {ClaimRequest(w, a.x)}
    else if a.Send? && W.Where(s, a.x).Sending? then {FinalRequest(w, W.Where(s, a.x).h, W.Where(s, a.x).kind)}
    else {}
  }

  ghost function Next(f: Fleet, p: Step): Fleet
    requires Machine.Valid(f.run) && CanStep(f, p)
  {
    match p
    case Join(w) => f.(workers := f.workers[w := W.IDLE_STATE])
    case Local(w, a) =>
      f.(workers := f.workers[w := W.Do(f.workers[w], a)], requests := f.requests + Emitted(w, f.workers[w], a))
    case ServeClaim(w, x, t) =>
      f.(requests := f.requests - {ClaimRequest(w, x)}, run := Extend(f.run, Claim(w, t)),
         answers := f.answers + {ClaimAnswer(w, x, t)})
    case ServeFinal(w, h, kind) =>
      var e := Final(w, f.workers[w].tasks[h].task, kind);
      var g := f.(requests := f.requests - {FinalRequest(w, h, kind)});
      if Accepts(Now(f), e) then
        g.(run := Extend(f.run, e), senders := f.senders[|f.run.events| := Sender(h, kind)],
           answers := f.answers + {FinalAnswer(w, h)})
      else g
    case LoseRequest(r) => f.(requests := f.requests - {r})
    case LoseAnswer(r) => f.(answers := f.answers - {r})
    case ReceiveTask(w, x, t, h) =>
      f.(workers := f.workers[w := W.Do(f.workers[w], W.ClaimArrives(x, h, t))],
         answers := f.answers - {ClaimAnswer(w, x, t)})
    case ReceiveOk(w, x) =>
      f.(workers := f.workers[w := W.Do(f.workers[w], W.Reply(x, true))],
         answers := f.answers - {FinalAnswer(w, W.Where(f.workers[w], x).h)})
    case StoreCall(e) => f.(run := Extend(f.run, e))
  }

  // ---- the invariant ----

  /** The store has accepted a claim of t by w. */
  ghost predicate Claimed(run: Run, w: WorkerId, t: TaskId) {
    Claim(w, t) in run.events
  }

  ghost predicate SentBy(f: Fleet, w: WorkerId, h: W.HandleId) {
    w in f.workers && h in f.workers[w].tasks && f.workers[w].tasks[h].sends == 1
  }

  ghost predicate ServedAt(f: Fleet, j: nat, w: WorkerId, h: W.HandleId) {
    j in f.senders && f.senders[j].h == h && j < |f.run.events| && EndsHold(f.run.events[j])
    && f.run.events[j].worker == w
  }

  ghost predicate HandlesWereClaimed(f: Fleet) {
    && (forall w, h :: w in f.workers && h in f.workers[w].tasks ==> Claimed(f.run, w, f.workers[w].tasks[h].task))
    && (forall w, x, t :: ClaimAnswer(w, x, t) in f.answers ==> Claimed(f.run, w, t))
  }

  ghost predicate RequestsWereSent(f: Fleet) {
    && (forall w, h, k :: FinalRequest(w, h, k) in f.requests ==> SentBy(f, w, h))
    && (forall w, h, k, l :: FinalRequest(w, h, k) in f.requests && FinalRequest(w, h, l) in f.requests ==> k == l)
    && (forall w, h, k, j :: FinalRequest(w, h, k) in f.requests ==> !ServedAt(f, j, w, h))
  }

  ghost predicate GiveUpsHaveSenders(f: Fleet) {
    AllSent(f) && SendersMatch(f) && ServedOnce(f)
  }

  ghost predicate AllSent(f: Fleet) {
    forall j: nat :: j < |f.run.events| && EndsHold(f.run.events[j]) ==> j in f.senders
  }

  ghost predicate SendersMatch(f: Fleet) {
    forall j :: j in f.senders ==>
      && j < |f.run.events| && EndsHold(f.run.events[j])
      && SentBy(f, f.run.events[j].worker, f.senders[j].h)
      && f.workers[f.run.events[j].worker].tasks[f.senders[j].h].task == f.run.events[j].task
  }

  ghost predicate ServedOnce(f: Fleet) {
    forall i, j, w, h :: ServedAt(f, i, w, h) && ServedAt(f, j, w, h) ==> i == j
  }

  ghost predicate SuccessIsReal(f: Fleet) {
    && (forall w, h :: FinalAnswer(w, h) in f.answers ==> exists j :: ServedAt(f, j, w, h))
    && (forall w, x, h :: w in f.workers && W.Where(f.workers[w], x) == W.Clearing(h) ==>
          exists j :: ServedAt(f, j, w, h))
  }

  ghost predicate FleetInv(f: Fleet) {
    && Machine.Valid(f.run)
    && WorkersInv(f)
    && HandlesWereClaimed(f)
    && RequestsWereSent(f)
    && GiveUpsHaveSenders(f)
    && SuccessIsReal(f)
  }

  /** What any local step does to the handles: none disappears, changes its task or unsends. */
  lemma LocalKeepsHandles(s: W.State, a: W.Act, h: W.HandleId)
    requires W.Enabled(s, a) && h in s.tasks
    ensures h in W.Do(s, a).tasks && W.Do(s, a).tasks[h].task == s.tasks[h].task
    ensures s.tasks[h].sends <= W.Do(s, a).tasks[h].sends
  {
  }

  lemma LocalAddsHandles(s: W.State, a: W.Act, h: W.HandleId)
    requires W.Enabled(s, a) && h in W.Do(s, a).tasks && h !in s.tasks
    ensures a.ClaimArrives? && a.h == h && W.Do(s, a).tasks[h].task == a.task
  {
  }

  lemma SendingSends(s: W.State, a: W.Act)
    requires W.Inv(s) && W.Enabled(s, a) && a.Send?
    ensures var h := W.Where(s, a.x).h;
            h in s.tasks && s.tasks[h].sends == 0 && W.Do(s, a).tasks[h].sends == 1
  {
    assert W.PcInv(s, s.threads[a.x]);
  }

  lemma ClearingComesFromOk(s: W.State, a: W.Act, x: W.Thread, h: W.HandleId)
    requires W.Enabled(s, a) && W.Where(W.Do(s, a), x) == W.Clearing(h)
    ensures W.Where(s, x) == W.Clearing(h) || (a == W.Reply(x, true) && W.Where(s, x).Replying? && W.Where(s, x).h == h)
  {
  }

  ghost predicate WorkersInv(f: Fleet) {
    forall w :: w in f.workers ==> W.Inv(f.workers[w])
  }

  /** A step changes at most one worker, and that by one of its own steps. */
  function Moved(f: Fleet, p: Step): Option<(WorkerId, W.Act)> {
    match p
    case Local(w, a) => Some((w, a))
    case ReceiveTask(w, x, t, h) => Some((w, W.ClaimArrives(x, h, t)))
    case ReceiveOk(w, x) => Some((w, W.Reply(x, true)))
    case _ => None
  }

  lemma StepMoves(f: Fleet, p: Step)
    requires Machine.Valid(f.run) && CanStep(f, p)
    ensures Moved(f, p).Some? ==>
              var (w, a) := Moved(f, p).value;
              w in f.workers && W.Enabled(f.workers[w], a)
              && Next(f, p).workers == f.workers[w := W.Do(f.workers[w], a)]
    ensures Moved(f, p).None? ==>
              Next(f, p).workers == if p.Join? then f.workers[p.worker := W.IDLE_STATE] else f.workers
    ensures p.Join? ==> p.worker !in f.workers
  {
  }

  lemma StepKeepsWorkers(f: Fleet, p: Step)
    requires Machine.Valid(f.run) && WorkersInv(f) && CanStep(f, p)
    ensures WorkersInv(Next(f, p))
  {
    StepMoves(f, p);
    if Moved(f, p).Some? {
      var (w, a) := Moved(f, p).value;
      W.StepKeepsInv(f.workers[w], a);
    }
  }

  lemma HandleStays(f: Fleet, p: Step, w: WorkerId, h: W.HandleId)
    requires Machine.Valid(f.run) && WorkersInv(f) && CanStep(f, p) && w in f.workers && h in f.workers[w].tasks
    ensures w in Next(f, p).workers && h in Next(f, p).workers[w].tasks
    ensures Next(f, p).workers[w].tasks[h].task == f.workers[w].tasks[h].task
    ensures SentBy(f, w, h) ==> SentBy(Next(f, p), w, h)
  {
    StepMoves(f, p);
    StepKeepsWorkers(f, p);
    if Moved(f, p).Some? && Moved(f, p).value.0 == w {
      LocalKeepsHandles(f.workers[w], Moved(f, p).value.1, h);
      assert W.HandleInv(Next(f, p).workers[w], h);
    }
  }

  /** The store's history only grows, by the event of the step if it has one. */
  lemma HistoryGrows(f: Fleet, p: Step)
    requires Machine.Valid(f.run) && CanStep(f, p)
    ensures Machine.Valid(Next(f, p).run)
    ensures |f.run.events| <= |Next(f, p).run.events| <= |f.run.events| + 1
    ensures forall j :: 0 <= j < |f.run.events| ==> Next(f, p).run.events[j] == f.run.events[j]
    ensures p.ServeClaim? ==> Claimed(Next(f, p).run, p.worker, p.task)
    ensures |Next(f, p).run.events| > |f.run.events| && EndsHold(Next(f, p).run.events[|f.run.events|]) ==>
              p.ServeFinal?
  {
    if p.ServeClaim? {
      assert Next(f, p).run.events[|f.run.events|] == Claim(p.worker, p.task);
    }
  }

  lemma ClaimStays(f: Fleet, p: Step, w: WorkerId, t: TaskId)
    requires Machine.Valid(f.run) && CanStep(f, p) && Claimed(f.run, w, t)
    ensures Claimed(Next(f, p).run, w, t)
  {
    HistoryGrows(f, p);
    var i :| 0 <= i < |f.run.events| && f.run.events[i] == Claim(w, t);
    assert Next(f, p).run.events[i] == Claim(w, t);
  }

  lemma StepAnswers(f: Fleet, p: Step, r: Answer)
    requires Machine.Valid(f.run) && CanStep(f, p) && r in Next(f, p).answers
    ensures r in f.answers || (p.ServeClaim? && r == ClaimAnswer(p.worker, p.x, p.task))
            || (p.ServeFinal? && r == FinalAnswer(p.worker, p.h)
                && ServedAt(Next(f, p), |f.run.events|, p.worker, p.h))
  {
  }

  lemma StepKeepsClaims(f: Fleet, p: Step)
    requires Machine.Valid(f.run) && WorkersInv(f) && HandlesWereClaimed(f) && CanStep(f, p)
    ensures HandlesWereClaimed(Next(f, p))
  {
    var g := Next(f, p);
    HistoryGrows(f, p);
    StepMoves(f, p);
    forall w, h | w in g.workers && h in g.workers[w].tasks
      ensures Claimed(g.run, w, g.workers[w].tasks[h].task)
    {
      if w in f.workers && h in f.workers[w].tasks {
        HandleStays(f, p, w, h);
        ClaimStays(f, p, w, f.workers[w].tasks[h].task);
      } else if w in f.workers {
        LocalAddsHandles(f.workers[w], Moved(f, p).value.1, h);
        ClaimStays(f, p, w, p.task);
      }
    }
    forall w, x, t | ClaimAnswer(w, x, t) in g.answers
      ensures Claimed(g.run, w, t)
    {
      StepAnswers(f, p, ClaimAnswer(w, x, t));
      if ClaimAnswer(w, x, t) in f.answers {
        ClaimStays(f, p, w, t);
      }
    }
  }

  // ---- who was served ----

  lemma ServedStays(f: Fleet, p: Step, j: nat, w: WorkerId, h: W.HandleId)
    requires Machine.Valid(f.run) && CanStep(f, p) && ServedAt(f, j, w, h)
    ensures ServedAt(Next(f, p), j, w, h)
  {
    HistoryGrows(f, p);
  }

  lemma ServedIsOldOrNew(f: Fleet, p: Step, j: nat, w: WorkerId, h: W.HandleId)
    requires Machine.Valid(f.run) && CanStep(f, p) && ServedAt(Next(f, p), j, w, h)
    requires forall i :: i in f.senders ==> i < |f.run.events|
    ensures ServedAt(f, j, w, h)
            || (p.ServeFinal? && j == |f.run.events| && w == p.worker && h == p.h
                && FinalRequest(w, h, p.kind) in f.requests && FinalRequest(w, h, p.kind) !in Next(f, p).requests)
  {
    HistoryGrows(f, p);
  }

  lemma ServedWasSent(f: Fleet, j: nat, w: WorkerId, h: W.HandleId)
    requires GiveUpsHaveSenders(f) && ServedAt(f, j, w, h)
    ensures SentBy(f, w, h)
  {
  }

  lemma RequestIsOldOrNew(f: Fleet, p: Step, w: WorkerId, h: W.HandleId, k: W.Kind)
    requires Machine.Valid(f.run) && WorkersInv(f) && CanStep(f, p)
    requires FinalRequest(w, h, k) in Next(f, p).requests
    ensures FinalRequest(w, h, k) in f.requests
            || (p.Local? && p.worker == w && p.a.Send? && k == W.Where(f.workers[w], p.a.x).kind
                && !SentBy(f, w, h) && SentBy(Next(f, p), w, h))
  {
    if p.Local? && p.a.Send? && FinalRequest(w, h, k) !in f.requests {
      SendingSends(f.workers[p.worker], p.a);
    }
  }

  lemma StepKeepsRequests(f: Fleet, p: Step)
    requires FleetInv(f) && CanStep(f, p)
    ensures RequestsWereSent(Next(f, p))
  {
    var g := Next(f, p);
    forall w, h, k | FinalRequest(w, h, k) in g.requests
      ensures SentBy(g, w, h)
    {
      RequestIsOldOrNew(f, p, w, h, k);
      if FinalRequest(w, h, k) in f.requests {
        HandleStays(f, p, w, h);
      }
    }
    forall w, h, k, l | FinalRequest(w, h, k) in g.requests && FinalRequest(w, h, l) in g.requests
      ensures k == l
    {
      RequestIsOldOrNew(f, p, w, h, k);
      RequestIsOldOrNew(f, p, w, h, l);
    }
    forall w, h, k, j: nat | FinalRequest(w, h, k) in g.requests && ServedAt(g, j, w, h)
      ensures false
    {
      RequestIsOldOrNew(f, p, w, h, k);
      ServedIsOldOrNew(f, p, j, w, h);
      if ServedAt(f, j, w, h) {
        ServedWasSent(f, j, w, h);
      }
    }
  }

  lemma GiveUpIsOldOrNew(f: Fleet, p: Step, j: nat)
    requires Machine.Valid(f.run) && CanStep(f, p) && j in Next(f, p).senders
    ensures if p.ServeFinal? && j == |f.run.events| && j < |Next(f, p).run.events| then
              Next(f, p).senders[j] == Sender(p.h, p.kind)
              && Next(f, p).run.events[j] == Final(p.worker, f.workers[p.worker].tasks[p.h].task, p.kind)
            else j in f.senders && Next(f, p).senders[j] == f.senders[j]
  {
  }

  lemma NewGiveUpHasSender(f: Fleet, p: Step)
    requires Machine.Valid(f.run) && CanStep(f, p)
    ensures forall j :: j in f.senders ==> j in Next(f, p).senders
    ensures |f.run.events| < |Next(f, p).run.events| && EndsHold(Next(f, p).run.events[|f.run.events|]) ==>
              |f.run.events| in Next(f, p).senders
  {
  }

  lemma GiveUpKeepsSender(f: Fleet, p: Step, j: nat)
    requires Machine.Valid(f.run) && WorkersInv(f) && RequestsWereSent(f) && SendersMatch(f)
    requires CanStep(f, p) && j in Next(f, p).senders
    ensures var g := Next(f, p);
            && j < |g.run.events| && EndsHold(g.run.events[j])
            && SentBy(g, g.run.events[j].worker, g.senders[j].h)
            && g.workers[g.run.events[j].worker].tasks[g.senders[j].h].task == g.run.events[j].task
  {
    HistoryGrows(f, p);
    GiveUpIsOldOrNew(f, p, j);
    if p.ServeFinal? && j == |f.run.events| && j < |Next(f, p).run.events| {
      HandleStays(f, p, p.worker, p.h);
    } else {
      HandleStays(f, p, f.run.events[j].worker, f.senders[j].h);
    }
  }

  lemma StepKeepsServedOnce(f: Fleet, p: Step)
    requires FleetInv(f) && CanStep(f, p)
    ensures ServedOnce(Next(f, p))
  {
    forall i: nat, j: nat, w, h | ServedAt(Next(f, p), i, w, h) && ServedAt(Next(f, p), j, w, h)
      ensures i == j
    {
      ServedIsOldOrNew(f, p, i, w, h);
      ServedIsOldOrNew(f, p, j, w, h);
    }
  }

  lemma StepKeepsAllSent(f: Fleet, p: Step)
    requires Machine.Valid(f.run) && AllSent(f) && CanStep(f, p)
    ensures AllSent(Next(f, p))
  {
    HistoryGrows(f, p);
    NewGiveUpHasSender(f, p);
  }

  lemma StepKeepsGiveUps(f: Fleet, p: Step)
    requires FleetInv(f) && CanStep(f, p)
    ensures GiveUpsHaveSenders(Next(f, p))
  {
    StepKeepsAllSent(f, p);
    StepKeepsServedOnce(f, p);
    forall j | j in Next(f, p).senders {
      GiveUpKeepsSender(f, p, j);
    }
  }

  /** A thread clears h only after taking a success from the network. */
  lemma ClearingIsOldOrNew(f: Fleet, p: Step, w: WorkerId, x: W.Thread, h: W.HandleId)
    requires Machine.Valid(f.run) && CanStep(f, p)
    requires w in Next(f, p).workers && W.Where(Next(f, p).workers[w], x) == W.Clearing(h)
    ensures w in f.workers
    ensures W.Where(f.workers[w], x) == W.Clearing(h)
            || (p == ReceiveOk(w, x) && W.Where(f.workers[w], x).Replying? && W.Where(f.workers[w], x).h == h
                && FinalAnswer(w, h) in f.answers)
  {
    StepMoves(f, p);
    if Moved(f, p).Some? && Moved(f, p).value.0 == w {
      ClearingComesFromOk(f.workers[w], Moved(f, p).value.1, x, h);
    }
  }

  lemma StepKeepsSuccess(f: Fleet, p: Step)
    requires FleetInv(f) && CanStep(f, p)
    ensures SuccessIsReal(Next(f, p))
  {
    var g := Next(f, p);
    forall w, h | FinalAnswer(w, h) in g.answers
      ensures exists j :: ServedAt(g, j, w, h)
    {
      StepAnswers(f, p, FinalAnswer(w, h));
      if FinalAnswer(w, h) in f.answers {
        var j: nat :| ServedAt(f, j, w, h);
        ServedStays(f, p, j, w, h);
      }
    }
    forall w, x, h | w in g.workers && W.Where(g.workers[w], x) == W.Clearing(h)
      ensures exists j :: ServedAt(g, j, w, h)
    {
      ClearingIsOldOrNew(f, p, w, x, h);
      var j: nat :| ServedAt(f, j, w, h);
      ServedStays(f, p, j, w, h);
    }
  }

  lemma StepKeepsFleetInv(f: Fleet, p: Step)
    requires FleetInv(f) && CanStep(f, p)
    ensures FleetInv(Next(f, p))
  {
    HistoryGrows(f, p);
    StepKeepsWorkers(f, p);
    StepKeepsClaims(f, p);
    StepKeepsRequests(f, p);
    StepKeepsGiveUps(f, p);
    StepKeepsSuccess(f, p);
  }

  // ---- reachable fleets ----

  function Started(now: Time): Fleet {
    Fleet(map[], {}, {}, Run([Empty(now)], []), map[])
  }

  ghost predicate Steps(f: Fleet, steps: seq<Step>, g: Fleet)
    requires Machine.Valid(f.run)
    decreases |steps|
  {
    if steps == [] then f == g
    else CanStep(f, steps[0]) && Machine.Valid(Next(f, steps[0]).run) && Steps(Next(f, steps[0]), steps[1..], g)
  }

  ghost predicate Reachable(g: Fleet) {
    exists now, steps :: Steps(Started(now), steps, g)
  }

  lemma {:induction false} StepsKeepInv(f: Fleet, steps: seq<Step>, g: Fleet)
    requires FleetInv(f) && Steps(f, steps, g)
    ensures FleetInv(g)
    decreases |steps|
  {
    if steps != [] {
      StepKeepsFleetInv(f, steps[0]);
      StepsKeepInv(Next(f, steps[0]), steps[1..], g);
    }
  }

  lemma ReachableFleetInv(g: Fleet)
    requires Reachable(g)
    ensures FleetInv(g)
  {
    var now, steps :| Steps(Started(now), steps, g);
    StepsKeepInv(Started(now), steps, g);
  }

  // ---- what a worker may believe about the task it holds ----

  lemma {:induction false} LastClaim(run: Run, k: nat, w: WorkerId, t: TaskId) returns (i: nat)
    requires k <= |run.events| && Claim(w, t) in run.events[..k]
    ensures i < k && run.events[i] == Claim(w, t)
    ensures forall j :: i < j < k ==> run.events[j] != Claim(w, t)
  {
    if run.events[k - 1] == Claim(w, t) {
      i := k - 1;
    } else {
      assert run.events[..k] == run.events[..k - 1] + [run.events[k - 1]];
      i := LastClaim(run, k - 1, w, t);
    }
  }

  /** The first release of t after its claim at i, if there is one before k. */
  lemma {:induction false} FirstRelease(run: Run, i: nat, k: nat, t: TaskId) returns (j: nat)
    requires Machine.Valid(run) && i < k <= |run.events|
    ensures i < j <= k
    ensures forall m :: i < m < j ==> !Releases(run.states[m], run.events[m], t)
    ensures j < k ==> Releases(run.states[j], run.events[j], t)
  {
    j := k;
    if i + 1 < k {
      var j' := FirstRelease(run, i, k - 1, t);
      if j' < k - 1 {
        j := j';
      } else if Releases(run.states[k - 1], run.events[k - 1], t) {
        j := k - 1;
      }
    }
  }

  /** The lease of a claim runs to its first release, which is the reaper's or its own worker's. */
  lemma LeaseToFirstRelease(run: Run, i: nat, j: nat, w: WorkerId, t: TaskId)
    requires Machine.Valid(run) && i < j <= |run.events| && run.events[i] == Claim(w, t)
    requires forall m :: i < m < j ==> !Releases(run.states[m], run.events[m], t)
    ensures Owns(run.states[j], w, t) && HeldSince(run, j, t) == Some(i)
    ensures j < |run.events| && Releases(run.states[j], run.events[j], t) ==>
              ReapsRow(run.states[j], run.events[j], t) || (GivesUp(run.events[j], t) && run.events[j].worker == w)
  {
    assert StepAt(run, i);
    LeaseSurvives(run, i + 1, j, t);
    forall m | i < m < j
      ensures !Claims(run.events[m], t)
    {
      LeaseSurvives(run, i + 1, m, t);
      assert StepAt(run, m);
    }
    HeldSinceMeans(run, j, t, i);
    if j < |run.events| {
      assert StepAt(run, j);
    }
  }

  /** In every reachable fleet, when worker w's state holds an unfinalised handle of task t, then
      since the last claim of t the store accepted from w (there is one), either t is still w's
      under that very claim, or the first thing to end that claim was the reaper, or it was a
      finalising request of w itself, sent through another handle of t that w had finalised. */
  lemma HeldTaskIsLeasedOrExplained(f: Fleet, w: WorkerId, h: W.HandleId) returns (i: nat, j: nat)
    requires Reachable(f) && w in f.workers && f.workers[w].current == Some(h)
    requires h in f.workers[w].tasks && !f.workers[w].tasks[h].finalized
    ensures |f.run.states| == |f.run.events| + 1 && Machine.Valid(f.run)
    ensures var t := f.workers[w].tasks[h].task;
            && i < j <= |f.run.events| && f.run.events[i] == Claim(w, t)
            && (forall m :: i < m < |f.run.events| ==> f.run.events[m] != Claim(w, t))
            && (forall m :: i < m < j ==> !Releases(f.run.states[m], f.run.events[m], t))
            && (j == |f.run.events| ==> Owns(Now(f), w, t) && HeldSince(f.run, j, t) == Some(i))
            && (j < |f.run.events| ==>
                  || ReapsRow(f.run.states[j], f.run.events[j], t)
                  || (GivesUp(f.run.events[j], t) && f.run.events[j].worker == w && j in f.senders
                      && f.senders[j].h != h && f.senders[j].h in f.workers[w].tasks
                      && f.workers[w].tasks[f.senders[j].h].task == t && f.workers[w].tasks[f.senders[j].h].finalized))
  {
    ReachableFleetInv(f);
    var n, t := |f.run.events|, f.workers[w].tasks[h].task;
    assert f.run.events[..n] == f.run.events;
    i := LastClaim(f.run, n, w, t);
    j := FirstRelease(f.run, i, n, t);
    LeaseToFirstRelease(f.run, i, j, w, t);
    if j < n && GivesUp(f.run.events[j], t) {
      assert EndsHold(f.run.events[j]);
      assert W.HandleInv(f.workers[w], h) && W.HandleInv(f.workers[w], f.senders[j].h);
    }
  }

  /** So a worker that never made a second handle for the task loses it to the reaper or not at all:
      its last claim of the task still stands, or the first thing to end that claim was a reap. */
  lemma SoleHandleLosesOnlyToReaper(f: Fleet, w: WorkerId, h: W.HandleId) returns (i: nat, j: nat)
    requires Reachable(f) && w in f.workers && f.workers[w].current == Some(h)
    requires h in f.workers[w].tasks && !f.workers[w].tasks[h].finalized
    requires forall g :: g in f.workers[w].tasks && g != h ==> f.workers[w].tasks[g].task != f.workers[w].tasks[h].task
    ensures Machine.Valid(f.run)
    ensures var t := f.workers[w].tasks[h].task;
            && i < j <= |f.run.events| && f.run.events[i] == Claim(w, t)
            && (forall m :: i < m < |f.run.events| ==> f.run.events[m] != Claim(w, t))
            && (forall m :: i < m < j ==> !Releases(f.run.states[m], f.run.events[m], t))
            && (if j == |f.run.events| then Owns(Now(f), w, t) && HeldSince(f.run, j, t) == Some(i)
                else ReapsRow(f.run.states[j], f.run.events[j], t))
  {
    i, j := HeldTaskIsLeasedOrExplained(f, w, h);
  }

  /** Each handle ends at most one hold in the store, however its requests and answers fare. */
  lemma HandleEndsAtMostOneHold(f: Fleet, i: nat, j: nat, w: WorkerId, h: W.HandleId)
    requires Reachable(f) && ServedAt(f, i, w, h) && ServedAt(f, j, w, h)
    ensures i == j
  {
    ReachableFleetInv(f);
  }

  /** Every hold that was given up in the store was given up through a handle of that worker for
      that task, finalised, with its heartbeat goroutine gone. */
  lemma GiveUpsComeFromHandles(f: Fleet, j: nat)
    requires Reachable(f) && j < |f.run.events| && EndsHold(f.run.events[j])
    ensures var e := f.run.events[j];
            && j in f.senders && e.worker in f.workers && f.senders[j].h in f.workers[e.worker].tasks
            && f.workers[e.worker].tasks[f.senders[j].h].task == e.task
            && f.workers[e.worker].tasks[f.senders[j].h].finalized
            && W.Quiet(f.workers[e.worker].tasks[f.senders[j].h])
  {
    ReachableFleetInv(f);
    assert W.HandleInv(f.workers[f.run.events[j].worker], f.senders[j].h);
  }

  /** A worker clears its state only for a task whose finalising call the store has accepted. */
  lemma ClearOnlyAfterAcceptance(f: Fleet, w: WorkerId, x: W.Thread, h: W.HandleId) returns (j: nat)
    requires Reachable(f) && w in f.workers && W.Where(f.workers[w], x) == W.Clearing(h)
    ensures ServedAt(f, j, w, h) && f.workers[w].current == Some(h)
    ensures h in f.workers[w].tasks && f.run.events[j].task == f.workers[w].tasks[h].task
  {
    ReachableFleetInv(f);
    j :| ServedAt(f, j, w, h);
    assert W.PcInv(f.workers[w], f.workers[w].threads[x]);
  }
}
