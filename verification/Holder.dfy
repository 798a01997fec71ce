// The worker's State and the Task handles it shares, as objects updated in place: one method per
// section that runs under a mutex. Each method is shown to be one step of module Worker, and the
// ghost run ties every holder to the theorems about interleavings.

module Holder {
  import opened Tasks
  import opened Worker
  import Interleavings

  datatype Reply = Ok | ErrNoCurrentTask | ErrAlreadyHaveTask | ErrTaskNotMatching | ErrAlreadyFinalized

  class Holder {
    var current: Option<HandleId>
    var stopHB: Option<HandleId>
    var tasks: map<HandleId, Handle>
    var threads: map<Thread, Pc>
    ghost var run: Interleavings.WorkerRun

    function View(): State
      reads this
    {
      State(current, stopHB, tasks, threads)
    }

    ghost predicate Good()
      reads this
    {
      Interleavings.Valid(run) && run.states[|run.acts|] == View()
    }

    constructor ()
      ensures Good() && View() == IDLE_STATE && run.acts == []
    {
      current, stopHB, tasks, threads := None, None, map[], map[];
      run := Interleavings.WorkerRun([IDLE_STATE], []);
    }

    /** A step outside every mutex: starting a call, an RPC or its answer, a heartbeat. */
    method Outside(a: Act)
      requires Good() && Enabled(View(), a)
      requires !a.Peek? && !a.Publish? && !a.Require? && !a.Mark? && !a.Clear? && !a.StopLock?
      modifies this
      ensures Good() && run == Interleavings.Extend(old(run), a)
      ensures current == old(current) && stopHB == old(stopHB)
    {
      var s := Do(View(), a);
      tasks, threads := s.tasks, s.threads;
      run := Interleavings.Extend(run, a);
    }

    /** ClaimNext, first section. */
    method Peek(x: Thread) returns (held: Option<HandleId>, reply: Reply)
      requires Good() && Enabled(View(), Act.Peek(x))
      modifies this
      ensures Good() && run == Interleavings.Extend(old(run), Act.Peek(x))
      ensures held == old(current) && (reply == ErrAlreadyHaveTask <==> held.Some?)
    {
      held, reply := None, Ok;
      if current.Some? {
        held, reply := current, ErrAlreadyHaveTask;
        threads := threads[x := Done];
      } else {
        threads := threads[x := ClaimCalling];
      }
      run := Interleavings.Extend(run, Act.Peek(x));
    }

    /** ClaimNext, second section: keep the new handle and start its heartbeat, or, if another
        call got there first, leave it to a goroutine that fails it. */
    method Publish(x: Thread, dropper: Thread) returns (held: HandleId, reply: Reply)
      requires Good() && Enabled(View(), Act.Publish(x, dropper))
      modifies this
      ensures Good() && run == Interleavings.Extend(old(run), Act.Publish(x, dropper))
      ensures current == Some(held)
      ensures reply == if old(current).Some? then ErrAlreadyHaveTask else Ok
    {
      var h := threads[x].h;
      threads := threads[x := Done];
      if current.Some? {
        threads := threads[dropper := Marking(h, Drop)];
        held, reply := current.value, ErrAlreadyHaveTask;
      } else {
        current := Some(h);
        if !tasks[h].armed {
          tasks := tasks[h := tasks[h].(armed := true, cancelled := false, beat := Idle)];
        }
        stopHB := Some(h);
        held, reply := h, Ok;
      }
      run := Interleavings.Extend(run, Act.Publish(x, dropper));
    }

    method RequireTask(x: Thread, kind: Kind, wanted: Option<TaskId>) returns (h: Option<HandleId>, reply: Reply)
      requires Good() && Enabled(View(), Require(x)) && Where(View(), x) == Entering(kind, wanted)
      modifies this
      ensures Good() && run == Interleavings.Extend(old(run), Require(x))
      ensures reply == Ok <==> h.Some?
      ensures h.Some? ==> h == current && (wanted.Some? ==> wanted.value == tasks[h.value].task)
      ensures reply == ErrNoCurrentTask <==> current.None?
    {
      h, reply := None, Ok;
      if current.None? {
        reply := ErrNoCurrentTask;
        threads := threads[x := Done];
      } else if wanted.Some? && wanted.value != tasks[current.value].task {
        reply := ErrTaskNotMatching;
        threads := threads[x := Done];
      } else {
        h := current;
        threads := threads[x := Marking(current.value, kind)];
      }
      run := Interleavings.Extend(run, Require(x));
    }

    /** The section of markFinalized; only one caller per handle ever gets Ok. */
    method MarkFinalized(x: Thread, h: HandleId, kind: Kind) returns (stopBeat: bool, reply: Reply)
      requires Good() && Enabled(View(), Mark(x)) && Where(View(), x) == Marking(h, kind)
      modifies this
      ensures Good() && run == Interleavings.Extend(old(run), Mark(x))
      ensures h in old(tasks) && h in tasks && tasks[h].finalized && !tasks[h].armed
      ensures reply == if old(tasks[h]).finalized then ErrAlreadyFinalized else Ok
      ensures stopBeat <==> reply == Ok && old(tasks[h]).armed
    {
      ghost var k := |run.acts|;
      Interleavings.ReachableInv(run, k);
      assert HandleInv(View(), h);
      var t := tasks[h];
      if t.finalized {
        threads := threads[x := Done];
        stopBeat, reply := false, ErrAlreadyFinalized;
      } else {
        stopBeat, reply := t.armed, Ok;
        tasks := tasks[h := t.(finalized := true, armed := false)];
        threads := threads[x := if stopBeat then Cancelling(h, kind) else Sending(h, kind)];
      }
      run := Interleavings.Extend(run, Mark(x));
    }

    /** clear(): unconditional, yet always of the caller's own handle. */
    method Clear(x: Thread) returns (stop: Option<HandleId>)
      requires Good() && Enabled(View(), Act.Clear(x))
      modifies this
      ensures Good() && run == Interleavings.Extend(old(run), Act.Clear(x))
      ensures current == None && stopHB == None
      ensures stop == old(current) == Some(old(threads)[x].h)
    {
      Interleavings.ReachableInv(run, |run.acts|);
      assert PcInv(View(), threads[x]);
      stop := stopHB;
      stopHB := None;
      current := None;
      threads := threads[x := if stop.Some? then Stopping(stop.value) else Done];
      run := Interleavings.Extend(run, Act.Clear(x));
    }

    /** The section of the stop function. After a clear there is never a heartbeat left to cancel. */
    method StopLock(x: Thread, h: HandleId) returns (cancel: bool)
      requires Good() && Enabled(View(), Act.StopLock(x)) && Where(View(), x) == Stopping(h)
      modifies this
      ensures Good() && run == Interleavings.Extend(old(run), Act.StopLock(x))
      ensures !cancel && tasks == old(tasks)
    {
      ghost var s, before := View(), run;
      cancel := tasks[h].armed;
      if cancel {
        tasks := tasks[h := tasks[h].(armed := false)];
        threads := threads[x := StopCancelling(h)];
      } else {
        threads := threads[x := Done];
      }
      run := Interleavings.Extend(run, Act.StopLock(x));
      Interleavings.ReachableInv(before, |before.acts|);
      assert PcInv(s, s.threads[x]) && HandleInv(s, h);
    }
  }
}
