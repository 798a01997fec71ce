// One worker process: the State that MCP calls share, the Task handles it hands out, and every
// call as a small program cut at its locks, unlocks and RPCs. A section run under a mutex is one
// step; cancelling a heartbeat, waiting for it, sending an RPC and getting its answer are steps
// of their own, and the heartbeat goroutine of each handle steps by itself.

module Worker {
  import opened Tasks

  type HandleId = nat     // a *Task, by address: two claims of one task are two handles
  type Thread = nat       // a goroutine running one call

  datatype Beat = NotStarted | Idle | Calling | Exited

  /** taskclient.Task. `armed` is hbCancel != nil; `cancelled` is its context's state. */
  datatype Handle = Handle(task: TaskId, finalized: bool, armed: bool, cancelled: bool, beat: Beat, sends: nat)

  /** What a finalising call asks for. Drop is the Fail of a handle that lost the claim race. */
  datatype Kind = Complete | Fail(message: string) | OpenPR(url: string) | Drop

  datatype Pc =
    | ClaimStart
    | ClaimCalling
    | ClaimReturned(h: HandleId)
    | Entering(kind: Kind, wanted: Option<TaskId>)
    | Marking(h: HandleId, kind: Kind)
    | Cancelling(h: HandleId, kind: Kind)
    | Awaiting(h: HandleId, kind: Kind)
    | Sending(h: HandleId, kind: Kind)
    | Replying(h: HandleId, kind: Kind)
    | Clearing(h: HandleId)
    | Stopping(h: HandleId)
    | StopCancelling(h: HandleId)
    | StopAwaiting(h: HandleId)
    | Done

  datatype State = State(
    current: Option<HandleId>,
    stopHB: Option<HandleId>,      // the stop function, by the handle it closes over
    tasks: map<HandleId, Handle>,
    threads: map<Thread, Pc>
  )

  datatype Act =
    | CallClaimNext(x: Thread)
    | CallFinalize(x: Thread, kind: Kind, wanted: Option<TaskId>)
    | Peek(x: Thread)
    | ClaimFails(x: Thread)                        // no task, an error, or a lost answer
    | ClaimArrives(x: Thread, h: HandleId, task: TaskId)
    | Publish(x: Thread, dropper: Thread)
    | Require(x: Thread)
    | Mark(x: Thread)
    | Cancel(x: Thread)
    | Await(x: Thread)
    | Send(x: Thread)
    | Reply(x: Thread, ok: bool)                   // not ok: rejected, failed, timed out or lost
    | Clear(x: Thread)
    | StopLock(x: Thread)
    | StopCancel(x: Thread)
    | StopAwait(x: Thread)
    | BeatStarts(h: HandleId)
    | BeatReturns(h: HandleId)
    | BeatExits(h: HandleId)

  const IDLE_STATE := State(None, None, map[], map[])

  /** Where thread x stands, Done if it does not run. */
  function Where(s: State, x: Thread): Pc {
    if x in s.threads then s.threads[x] else Done
  }

  predicate Enabled(s: State, a: Act) {
    match a
    case CallClaimNext(x) => x !in s.threads
    case CallFinalize(x, kind, _) => x !in s.threads && kind != Drop
    case Peek(x) => Where(s, x).ClaimStart?
    case ClaimFails(x) => Where(s, x).ClaimCalling?
    case ClaimArrives(x, h, _) => Where(s, x).ClaimCalling? && h !in s.tasks
    case Publish(x, dropper) => Where(s, x).ClaimReturned? && Where(s, x).h in s.tasks && dropper !in s.threads
    case Require(x) => Where(s, x).Entering? && (s.current.Some? ==> s.current.value in s.tasks)
    case Mark(x) => Where(s, x).Marking? && Where(s, x).h in s.tasks
    case Cancel(x) => Where(s, x).Cancelling? && Where(s, x).h in s.tasks
    case Await(x) => Where(s, x).Awaiting? && Where(s, x).h in s.tasks && s.tasks[Where(s, x).h].beat.Exited?
    case Send(x) => Where(s, x).Sending? && Where(s, x).h in s.tasks
    case Reply(x, _) => Where(s, x).Replying?
    case Clear(x) => Where(s, x).Clearing?
    case StopLock(x) => Where(s, x).Stopping? && Where(s, x).h in s.tasks
    case StopCancel(x) => Where(s, x).StopCancelling? && Where(s, x).h in s.tasks
    case StopAwait(x) => Where(s, x).StopAwaiting? && Where(s, x).h in s.tasks && s.tasks[Where(s, x).h].beat.Exited?
    case BeatStarts(h) => h in s.tasks && s.tasks[h].beat.Idle?
    case BeatReturns(h) => h in s.tasks && s.tasks[h].beat.Calling?
    case BeatExits(h) => h in s.tasks && s.tasks[h].cancelled && (s.tasks[h].beat.Idle? || s.tasks[h].beat.Calling?)
  }

  // ---- taskclient.Task, one mutex section or channel operation at a time ----

  function Fresh(task: TaskId): Handle {
    Handle(task, false, false, false, NotStarted, 0)
  }

  /** StartHeartbeat: a second call while one is armed does nothing. */
  function Started(t: Handle): Handle {
    if t.armed then t else t.(armed := true, cancelled := false, beat := Idle)
  }

  /** The locked part of markFinalized, when it succeeds. */
  function Marked(t: Handle): Handle {
    t.(finalized := true, armed := false)
  }

  // ---- the steps ----

  function To(s: State, x: Thread, pc: Pc): State {
    s.(threads := s.threads[x := pc])
  }

  function Put(s: State, h: HandleId, t: Handle): State {
    s.(tasks := s.tasks[h := t])
  }

  function Do(s: State, a: Act): State
    requires Enabled(s, a)
  {
    match a
    case CallClaimNext(x) => To(s, x, ClaimStart)
    case CallFinalize(x, kind, wanted) => To(s, x, Entering(kind, wanted))
    case Peek(x) => To(s, x, if s.current.Some? then Done else ClaimCalling)
    case ClaimFails(x) => To(s, x, Done)
    case ClaimArrives(x, h, task) => To(Put(s, h, Fresh(task)), x, ClaimReturned(h))
    case Publish(x, dropper) =>
      var h := Where(s, x).h;
      if s.current.Some? then To(To(s, x, Done), dropper, Marking(h, Drop))
      else To(Put(s, h, Started(s.tasks[h])), x, Done).(current := Some(h), stopHB := Some(h))
    case Require(x) =>
      var pc := Where(s, x);
      if s.current.None? then To(s, x, Done)
      else if pc.wanted.Some? && pc.wanted.value != s.tasks[s.current.value].task then To(s, x, Done)
      else To(s, x, Marking(s.current.value, pc.kind))
    case Mark(x) =>
      var h, kind := Where(s, x).h, Where(s, x).kind;
      var t := s.tasks[h];
      if t.finalized then To(s, x, Done)
      else To(Put(s, h, Marked(t)), x, if t.armed then Cancelling(h, kind) else Sending(h, kind))
    case Cancel(x) =>
      var h := Where(s, x).h;
      To(Put(s, h, s.tasks[h].(cancelled := true)), x, Awaiting(h, Where(s, x).kind))
    case Await(x) => To(s, x, Sending(Where(s, x).h, Where(s, x).kind))
    case Send(x) =>
      var h := Where(s, x).h;
      To(Put(s, h, s.tasks[h].(sends := s.tasks[h].sends + 1)), x, Replying(h, Where(s, x).kind))
    case Reply(x, ok) =>
      To(s, x, if ok && Where(s, x).kind != Drop then Clearing(Where(s, x).h) else Done)
    case Clear(x) =>
      To(s, x, if s.stopHB.Some? then Stopping(s.stopHB.value) else Done).(current := None, stopHB := None)
    case StopLock(x) =>
      var h := Where(s, x).h;
      if s.tasks[h].armed then To(Put(s, h, s.tasks[h].(armed := false)), x, StopCancelling(h)) else To(s, x, Done)
    case StopCancel(x) =>
      var h := Where(s, x).h;
      To(Put(s, h, s.tasks[h].(cancelled := true)), x, StopAwaiting(h))
    case StopAwait(x) => To(s, x, Done)
    case BeatStarts(h) => Put(s, h, s.tasks[h].(beat := Calling))
    case BeatReturns(h) => Put(s, h, s.tasks[h].(beat := Idle))
    case BeatExits(h) => Put(s, h, s.tasks[h].(beat := Exited))
  }

  // ---- the invariant ----

  predicate Quiet(t: Handle) {
    t.beat.NotStarted? || t.beat.Exited?
  }

  /** Past markFinalized and not yet returned or clearing. */
  predicate InFinalize(pc: Pc) {
    pc.Cancelling? || pc.Awaiting? || pc.Sending? || pc.Replying?
  }

  /** The handle this thread alone may drive forward. */
  function Pen(pc: Pc): Option<HandleId> {
    if pc.ClaimReturned? || InFinalize(pc) || pc.Clearing? || (pc.Marking? && pc.kind == Drop) then Some(pc.h)
    else None
  }

  ghost predicate HandleInv(s: State, h: HandleId)
    requires h in s.tasks
  {
    var t := s.tasks[h];
    && (t.finalized ==> !t.armed)
    && (t.armed ==> s.current == Some(h) && !t.cancelled && (t.beat.Idle? || t.beat.Calling?))
    && (s.current == Some(h) && !t.finalized ==> t.armed)
    && (!t.finalized && !t.armed ==> t.beat.NotStarted?)
    && t.sends <= 1
    && (t.sends == 1 ==> t.finalized && Quiet(t))
  }

  ghost predicate PcInv(s: State, pc: Pc) {
    match pc
    case ClaimStart => true
    case ClaimCalling => true
    case Entering(kind, _) => kind != Drop
    case Done => true
    case ClaimReturned(h) => h in s.tasks && !s.tasks[h].finalized && s.current != Some(h)
    case Marking(h, kind) =>
      h in s.tasks && if kind == Drop then !s.tasks[h].finalized && s.current != Some(h)
                      else s.current == Some(h) || s.tasks[h].finalized
    case Cancelling(h, kind) =>
      h in s.tasks && s.tasks[h].finalized && s.tasks[h].sends == 0 && kind != Drop && s.current == Some(h)
    case Awaiting(h, kind) =>
      h in s.tasks && s.tasks[h].finalized && s.tasks[h].sends == 0 && kind != Drop && s.current == Some(h)
    case Sending(h, kind) =>
      h in s.tasks && s.tasks[h].finalized && s.tasks[h].sends == 0 && Quiet(s.tasks[h])
      && (kind == Drop <==> s.current != Some(h))
    case Replying(h, kind) =>
      h in s.tasks && s.tasks[h].sends == 1 && (kind == Drop <==> s.current != Some(h))
    case Clearing(h) => h in s.tasks && s.tasks[h].sends == 1 && s.current == Some(h)
    case Stopping(h) => h in s.tasks && s.tasks[h].finalized
    case StopCancelling(h) => false
    case StopAwaiting(h) => false
  }

  ghost predicate Inv(s: State) {
    && s.stopHB == s.current
    && (s.current.Some? ==> s.current.value in s.tasks)
    && (forall h :: h in s.tasks ==> HandleInv(s, h))
    && (forall x :: x in s.threads ==> PcInv(s, s.threads[x]))
    && (forall x, y :: x in s.threads && y in s.threads && x != y && Pen(s.threads[x]).Some? ==>
          Pen(s.threads[x]) != Pen(s.threads[y]))
  }

  /** The steps of the heartbeat goroutines. */
  predicate Beats(a: Act) {
    a.BeatStarts? || a.BeatReturns? || a.BeatExits?
  }

  /** The threads a step moves. */
  predicate Steps(a: Act, x: Thread) {
    (!Beats(a) && a.x == x) || (a.Publish? && a.dropper == x)
  }

  lemma StepKeepsCurrent(s: State, a: Act)
    requires Inv(s) && Enabled(s, a)
    ensures Do(s, a).stopHB == Do(s, a).current
    ensures Do(s, a).current.Some? ==> Do(s, a).current.value in Do(s, a).tasks
  {
  }

  lemma BeatKeepsHandle(s: State, a: Act, h: HandleId)
    requires Enabled(s, a) && Beats(a) && h in s.tasks && HandleInv(s, h)
    ensures HandleInv(Do(s, a), h)
  {
  }

  /** Only these steps write to a handle or to `current`. */
  predicate Writes(a: Act) {
    a.ClaimArrives? || a.Publish? || a.Mark? || a.Cancel? || a.Send? || a.Clear? || a.StopLock? || a.StopCancel?
  }

  lemma OthersKeepHandle(s: State, a: Act, h: HandleId)
    requires Enabled(s, a) && !Beats(a) && !Writes(a) && h in s.tasks && HandleInv(s, h)
    ensures HandleInv(Do(s, a), h)
  {
  }

  lemma WriteKeepsHandle(s: State, a: Act, h: HandleId)
    requires Enabled(s, a) && Writes(a) && h in Do(s, a).tasks
    requires h in s.tasks ==> HandleInv(s, h)
    requires s.current.Some? ==> s.current.value in s.tasks
    requires a.x in s.threads && PcInv(s, s.threads[a.x])
    ensures HandleInv(Do(s, a), h)
  {
  }

  lemma StepKeepsHandle(s: State, a: Act, h: HandleId)
    requires Inv(s) && Enabled(s, a) && h in Do(s, a).tasks
    ensures HandleInv(Do(s, a), h)
  {
    if Beats(a) {
      BeatKeepsHandle(s, a, h);
    } else if Writes(a) {
      WriteKeepsHandle(s, a, h);
    } else {
      OthersKeepHandle(s, a, h);
    }
  }

  /** How a thread comes by a pen: it had it, its claim arrived, it marked a handle, or it was
      spawned to drop the handle of a call that lost the race and lets go of it. */
  lemma PenComesFrom(s: State, a: Act, x: Thread)
    requires Enabled(s, a) && x in Do(s, a).threads && Pen(Do(s, a).threads[x]).Some?
    requires x in s.threads ==> PcInv(s, s.threads[x])
    ensures var pen := Pen(Do(s, a).threads[x]);
            || (x in s.threads && pen == Pen(s.threads[x]) && !(a.Publish? && a.x == x))
            || (a.ClaimArrives? && a.x == x && pen.value == a.h)
            || (a == Mark(x) && s.threads[x].kind != Drop && pen.value == s.threads[x].h
                && !s.tasks[pen.value].finalized)
            || (a.Publish? && a.dropper == x && pen == Pen(s.threads[a.x]))
  {
  }

  lemma PenHeld(s: State, x: Thread)
    requires Inv(s) && x in s.threads && Pen(s.threads[x]).Some?
    ensures var h := Pen(s.threads[x]).value;
            h in s.tasks && (s.tasks[h].finalized || s.current != Some(h))
  {
    assert PcInv(s, s.threads[x]);
    if s.threads[x].Replying? || s.threads[x].Clearing? {
      assert HandleInv(s, s.threads[x].h);
    }
  }

  lemma MarkedByNobodyElse(s: State, x: Thread)
    requires Inv(s) && Enabled(s, Mark(x)) && s.threads[x].kind != Drop && !s.tasks[s.threads[x].h].finalized
    ensures forall y :: y in s.threads ==> Pen(s.threads[y]) != Some(s.threads[x].h)
  {
    assert PcInv(s, s.threads[x]);
    forall y | y in s.threads && Pen(s.threads[y]).Some? {
      PenHeld(s, y);
    }
  }

  lemma StepKeepsPens(s: State, a: Act, x: Thread, y: Thread)
    requires Inv(s) && Enabled(s, a) && x in Do(s, a).threads && y in Do(s, a).threads && x != y
    ensures Pen(Do(s, a).threads[x]).Some? ==> Pen(Do(s, a).threads[x]) != Pen(Do(s, a).threads[y])
  {
    var s' := Do(s, a);
    if Pen(s'.threads[x]).Some? && Pen(s'.threads[y]).Some? {
      PenComesFrom(s, a, x);
      PenComesFrom(s, a, y);
      if a.ClaimArrives? {
        forall z | z in s.threads && Pen(s.threads[z]).Some? {
          PenHeld(s, z);
        }
      } else if a.Mark? && s.threads[a.x].kind != Drop && !s.tasks[s.threads[a.x].h].finalized {
        MarkedByNobodyElse(s, a.x);
      }
    }
  }

  lemma OwnPcKept(s: State, a: Act, x: Thread)
    requires Inv(s) && Enabled(s, a) && x in Do(s, a).threads && Steps(a, x)
    ensures PcInv(Do(s, a), Do(s, a).threads[x])
  {
  }

  lemma BeatKeepsPc(s: State, a: Act, pc: Pc)
    requires Enabled(s, a) && Beats(a) && PcInv(s, pc)
    ensures PcInv(Do(s, a), pc)
  {
  }

  lemma OthersKeepPc(s: State, a: Act, pc: Pc)
    requires Enabled(s, a) && !Beats(a) && !Writes(a) && PcInv(s, pc)
    ensures PcInv(Do(s, a), pc)
  {
    assert Do(s, a).tasks == s.tasks && Do(s, a).current == s.current;
  }

  lemma WriteKeepsPc(s: State, a: Act, x: Thread)
    requires Inv(s) && Enabled(s, a) && Writes(a) && x in s.threads && !Steps(a, x)
    ensures PcInv(Do(s, a), s.threads[x])
  {
  }

  lemma OtherStaysWhereItIs(s: State, a: Act, x: Thread)
    requires Enabled(s, a) && x in Do(s, a).threads && !Steps(a, x)
    ensures x in s.threads && Do(s, a).threads[x] == s.threads[x]
  {
  }

  lemma OtherPcKept(s: State, a: Act, x: Thread)
    requires Inv(s) && Enabled(s, a) && x in Do(s, a).threads && !Steps(a, x)
    ensures PcInv(Do(s, a), Do(s, a).threads[x])
  {
    OtherStaysWhereItIs(s, a, x);
    if Beats(a) {
      BeatKeepsPc(s, a, s.threads[x]);
    } else if Writes(a) {
      WriteKeepsPc(s, a, x);
    } else {
      OthersKeepPc(s, a, s.threads[x]);
    }
  }

  lemma StepKeepsInv(s: State, a: Act)
    requires Inv(s) && Enabled(s, a)
    ensures Inv(Do(s, a))
  {
    StepKeepsCurrent(s, a);
    forall h | h in Do(s, a).tasks {
      StepKeepsHandle(s, a, h);
    }
    forall x, y | x in Do(s, a).threads && y in Do(s, a).threads && x != y {
      StepKeepsPens(s, a, x, y);
    }
    forall x | x in Do(s, a).threads
      ensures PcInv(Do(s, a), Do(s, a).threads[x])
    {
      if Steps(a, x) {
        OwnPcKept(s, a, x);
      } else {
        OtherPcKept(s, a, x);
      }
    }
  }
}
