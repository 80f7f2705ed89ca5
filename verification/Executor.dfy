/** The dedicated executor: spawning, cancelling and the shutdown handshake, as a protocol between callers,
    job handles, the worker loop and the running tasks. */
module Executor {
  type Id = nat

  /** The worker thread receives tasks, then waits for the running ones, then signals completion. */
  datatype Worker = Receiving | Draining | Signalled

  /** Every spawned task is in exactly one place: turned away, in the channel, running, holding its
      read lock a moment longer after having sent its result, finished, or cancelled. Job handles are
      held, dropped or detached; `cancel` are the tokens that were fired, `sent` the delivered results. */
  datatype State = State(
    open: bool, queue: seq<Id>, running: set<Id>, finishing: set<Id>,
    finished: set<Id>, cancelled: set<Id>, rejected: set<Id>,
    held: set<Id>, dropped: set<Id>, detached: set<Id>,
    cancel: set<Id>, sent: set<Id>, worker: Worker)

  const INIT: State := State(true, [], {}, {}, {}, {}, {}, {}, {}, {}, {}, {}, Receiving)

  ghost function Queued(s: State): set<Id> { set id | id in s.queue }

  ghost function Accepted(s: State): set<Id> { Queued(s) + s.running + s.finishing + s.finished + s.cancelled }

  ghost function Spawned(s: State): set<Id> { Accepted(s) + s.rejected }

  datatype Step =
    | Spawn(id: Id)
    | Shutdown
    | Receive            // the worker takes the next task from the channel and starts it
    | SendResult(id: Id) // the task's future completes, with a value or a panic
    | Finish(id: Id)     // the task gives its read lock back
    | Cancel(id: Id)     // the cancellation branch of the task wins
    | ExitLoop           // the channel is empty and hung up
    | Signal             // the write lock is granted: nothing runs any more
    | DropJob(id: Id)
    | DetachJob(id: Id)

  ghost predicate Enabled(s: State, step: Step) {
    match step
    case Spawn(id) => id !in Spawned(s)
    case Shutdown => true
    case Receive => s.worker == Receiving && s.queue != []
    case SendResult(id) => id in s.running
    case Finish(id) => id in s.finishing
    case Cancel(id) => id in s.running && id in s.cancel
    case ExitLoop => s.worker == Receiving && s.queue == [] && !s.open
    case Signal => s.worker == Draining && s.running == {} && s.finishing == {}
    case DropJob(id) => id in s.held
    case DetachJob(id) => id in s.held
  }

  ghost function Next(s: State, step: Step): (r: State)
    requires Enabled(s, step)
  {
    match step
    case Spawn(id) =>
      if s.open then s.(queue := s.queue + [id], held := s.held + {id})
      else s.(rejected := s.rejected + {id}, held := s.held + {id})
    case Shutdown => s.(open := false)
    case Receive => s.(queue := s.queue[1..], running := s.running + {s.queue[0]})
    case SendResult(id) =>
      s.(running := s.running - {id}, finishing := s.finishing + {id},
         sent := if id in s.held then s.sent + {id} else s.sent)
    case Finish(id) => s.(finishing := s.finishing - {id}, finished := s.finished + {id})
    case Cancel(id) => s.(running := s.running - {id}, cancelled := s.cancelled + {id})
    case ExitLoop => s.(worker := Draining)
    case Signal => s.(worker := Signalled)
    case DropJob(id) => s.(held := s.held - {id}, dropped := s.dropped + {id}, cancel := s.cancel + {id})
    case DetachJob(id) => s.(held := s.held - {id}, detached := s.detached + {id})
  }

  /** What polling a held job answers. */
  datatype PollResult = Pending | Ready | WorkerGone

  /** The result if it was delivered; gone if the sending half was dropped without a result. */
  ghost function Poll(s: State, id: Id): (r: PollResult)
    requires id in s.held
  {
    if id in s.sent then Ready
    else if id in Queued(s) || id in s.running then Pending
    else WorkerGone
  }

  ghost predicate Disjoint(s: State) {
    && Queued(s) !! s.running && Queued(s) !! s.finishing && Queued(s) !! s.finished && Queued(s) !! s.cancelled
    && Queued(s) !! s.rejected
    && s.running !! s.finishing !! s.finished !! s.cancelled !! s.rejected
    && s.held !! s.dropped !! s.detached
    && forall i, j :: 0 <= i < j < |s.queue| ==> s.queue[i] != s.queue[j]
  }

  ghost predicate Inv(s: State) {
    && Disjoint(s)
    && Spawned(s) == s.held + s.dropped + s.detached
    && s.cancel == s.dropped
    // only the job of a task can cancel it, by being dropped and not detached
    && s.cancelled <= s.dropped
    // results reach exactly the held jobs of tasks that ran to their end
    && s.sent <= s.finishing + s.finished
    && s.held * (s.finishing + s.finished) <= s.sent
    // the handshake: after the loop nothing is queued, after the signal nothing runs
    && (s.worker != Receiving ==> !s.open && s.queue == [])
    && (s.worker == Signalled ==> s.running == {} && s.finishing == {})
  }

  lemma StepKeepsInv(s: State, step: Step)
    requires Inv(s) && Enabled(s, step)
    ensures Inv(Next(s, step))
  {
    match step
    case Spawn(id) => SpawnKeepsInv(s, id);
    case Receive => ReceiveKeepsInv(s);
    case _ => assert Queued(Next(s, step)) == Queued(s);
  }

  lemma SpawnKeepsInv(s: State, id: Id)
    requires Inv(s) && id !in Spawned(s)
    ensures Inv(Next(s, Spawn(id)))
  {
    var t := Next(s, Spawn(id));
    if s.open {
      assert Queued(t) == Queued(s) + {id};
      forall i | 0 <= i < |s.queue| ensures s.queue[i] != id {
        assert s.queue[i] in Queued(s);
      }
    } else {
      assert Queued(t) == Queued(s);
    }
  }

  lemma ReceiveKeepsInv(s: State)
    requires Inv(s) && Enabled(s, Receive)
    ensures Inv(Next(s, Receive))
  {
    var t := Next(s, Receive);
    assert s.queue == [s.queue[0]] + t.queue;
    assert Queued(s) == Queued(t) + {s.queue[0]};
    assert s.queue[0] !in Queued(t);
  }

  // ---------- runs ----------

  ghost predicate IsRun(run: seq<State>, steps: seq<Step>) {
    && |run| == |steps| + 1 && run[0] == INIT
    && forall i :: 0 <= i < |steps| ==> Enabled(run[i], steps[i]) && run[i + 1] == Next(run[i], steps[i])
  }

  lemma {:induction false} RunKeepsInv(run: seq<State>, steps: seq<Step>, k: nat)
    requires IsRun(run, steps) && k < |run|
    ensures Inv(run[k])
  {
    hide Next, Enabled;
    if k == 0 {
      InitInv();
    } else {
      RunKeepsInv(run, steps, k - 1);
      assert run[k - 1 + 1] == Next(run[k - 1], steps[k - 1]);
      StepKeepsInv(run[k - 1], steps[k - 1]);
    }
  }

  lemma InitInv()
    ensures Inv(INIT)
  {
  }

  /** When completion is signalled, every accepted task has run to its end or was cancelled by dropping
      its job without detaching it; none is queued or running. */
  lemma SignalMeansQuiet(run: seq<State>, steps: seq<Step>, k: nat)
    requires IsRun(run, steps) && k < |run| && run[k].worker == Signalled
    ensures run[k].queue == [] && run[k].running == {} && run[k].finishing == {} && !run[k].open
    ensures Accepted(run[k]) == run[k].finished + run[k].cancelled && run[k].cancelled <= run[k].dropped
  {
    RunKeepsInv(run, steps, k);
  }

  /** A held job is told that the worker is gone only if its task was turned away. */
  lemma GoneMeansRejected(run: seq<State>, steps: seq<Step>, k: nat, id: Id)
    requires IsRun(run, steps) && k < |run| && id in run[k].held
    ensures Poll(run[k], id) == WorkerGone <==> id in run[k].rejected
    ensures Poll(run[k], id) == Ready <==> id in run[k].finishing + run[k].finished
  {
    RunKeepsInv(run, steps, k);
    var s := run[k];
    assert id in Spawned(s);
  }

  /** A running task can be cancelled exactly when its job was dropped, and it then has no result to send. */
  lemma CancelIff(run: seq<State>, steps: seq<Step>, k: nat, id: Id)
    requires IsRun(run, steps) && k < |run| && id in run[k].running
    ensures Enabled(run[k], Cancel(id)) <==> id in run[k].dropped
    ensures id in run[k].dropped ==>
      id in Next(run[k], Cancel(id)).cancelled && id !in Next(run[k], Cancel(id)).running && id !in run[k].sent
  {
    RunKeepsInv(run, steps, k);
  }

  lemma StepAfterShutdown(s: State, step: Step)
    requires Enabled(s, step) && !s.open
    ensures !Next(s, step).open && Accepted(Next(s, step)) == Accepted(s)
  {
    if step == Receive {
      var t := Next(s, step);
      assert s.queue == [s.queue[0]] + t.queue;
      assert Queued(s) == Queued(t) + {s.queue[0]};
    } else {
      assert Queued(Next(s, step)) == Queued(s);
    }
  }

  /** After shutdown no task is accepted any more. */
  lemma {:induction false} NoneAcceptedAfterShutdown(run: seq<State>, steps: seq<Step>, i: nat, j: nat)
    requires IsRun(run, steps) && i <= j < |run| && !run[i].open
    ensures !run[j].open && Accepted(run[j]) == Accepted(run[i])
    decreases j
  {
    hide Next, Enabled, Accepted;
    if i < j {
      NoneAcceptedAfterShutdown(run, steps, i, j - 1);
      assert run[j - 1 + 1] == Next(run[j - 1], steps[j - 1]);
      StepAfterShutdown(run[j - 1], steps[j - 1]);
    }
  }

  /** A finished or cancelled task stays so, and a detached job's task is never cancelled. */
  lemma {:induction false} EndsAreFinal(run: seq<State>, steps: seq<Step>, i: nat, j: nat)
    requires IsRun(run, steps) && i <= j < |run|
    ensures run[i].finished <= run[j].finished && run[i].cancelled <= run[j].cancelled
    ensures run[i].rejected <= run[j].rejected
    ensures run[j].detached !! run[j].cancelled
    decreases j
  {
    RunKeepsInv(run, steps, j);
    if i < j {
      EndsAreFinal(run, steps, i, j - 1);
      assert run[j - 1 + 1] == Next(run[j - 1], steps[j - 1]);
    }
  }

  // ---------- which tasks are accepted, and in which order they start ----------

  ghost function Started(s: State): set<Id> { s.running + s.finishing + s.finished + s.cancelled }

  /** Shutdown has been called before step k. */
  ghost predicate ShutDown(steps: seq<Step>, k: nat)
    requires k <= |steps|
  {
    exists j :: 0 <= j < k && steps[j] == Shutdown
  }

  /** The tasks spawned in the first k steps and before shutdown, in that order. */
  ghost function InTime(steps: seq<Step>, k: nat): seq<Id>
    requires k <= |steps|
  {
    if k == 0 then []
    else if steps[k - 1].Spawn? && !ShutDown(steps, k - 1) then InTime(steps, k - 1) + [steps[k - 1].id]
    else InTime(steps, k - 1)
  }

  /** How many tasks the worker has taken from the channel. */
  ghost function Received(steps: seq<Step>, k: nat): nat
    requires k <= |steps|
  {
    if k == 0 then 0 else Received(steps, k - 1) + (if steps[k - 1] == Receive then 1 else 0)
  }

  /** Exactly the tasks spawned before shutdown are accepted, and they are started in the order they came: those
      received are the first ones, and the others wait in the channel. */
  lemma {:induction false} AcceptedInOrder(run: seq<State>, steps: seq<Step>, k: nat)
    requires IsRun(run, steps) && k < |run|
    ensures run[k].open <==> !ShutDown(steps, k)
    ensures Received(steps, k) <= |InTime(steps, k)| && run[k].queue == InTime(steps, k)[Received(steps, k)..]
    ensures Started(run[k]) == set i | 0 <= i < Received(steps, k) :: InTime(steps, k)[i]
    ensures Accepted(run[k]) == set id | id in InTime(steps, k)
  {
    if k > 0 {
      AcceptedInOrder(run, steps, k - 1);
      assert run[k - 1 + 1] == Next(run[k - 1], steps[k - 1]);
      OneMoreStep(run[k - 1], steps[k - 1], InTime(steps, k - 1), Received(steps, k - 1));
    }
  }

  lemma OneMoreStep(s: State, step: Step, inTime: seq<Id>, received: nat)
    requires Enabled(s, step) && received <= |inTime| && s.queue == inTime[received..]
    requires Started(s) == set i | 0 <= i < received :: inTime[i]
    ensures
      var t, all := Next(s, step), if step.Spawn? && s.open then inTime + [step.id] else inTime;
      var n := if step == Receive then received + 1 else received;
      && n <= |all| && t.queue == all[n..] && Started(t) == (set i | 0 <= i < n :: all[i])
      && t.open == (s.open && step != Shutdown)
      && Accepted(t) == set id | id in all
  {
    var t, all := Next(s, step), if step.Spawn? && s.open then inTime + [step.id] else inTime;
    var n := if step == Receive then received + 1 else received;
    if step == Receive {
      assert s.queue[0] == inTime[received];
      assert (set i | 0 <= i < n :: all[i]) == (set i | 0 <= i < received :: inTime[i]) + {inTime[received]};
      assert Started(t) == Started(s) + {s.queue[0]};
    } else {
      assert (set i | 0 <= i < received :: all[i]) == (set i | 0 <= i < received :: inTime[i]);
      assert Started(t) == Started(s);
    }
    AllOfThem(t, all, n);
  }

  lemma AllOfThem(t: State, all: seq<Id>, n: nat)
    requires n <= |all| && t.queue == all[n..] && Started(t) == set i | 0 <= i < n :: all[i]
    ensures Accepted(t) == set id | id in all
  {
    assert Accepted(t) == Queued(t) + Started(t);
    forall id ensures id in Accepted(t) <==> id in all {
      if id in all {
        var i :| 0 <= i < |all| && all[i] == id;
        if i >= n {
          assert t.queue[i - n] == id;
        }
      }
    }
  }

  // ---------- shutdown completes ----------

  /** How much is left to do before completion can be signalled. */
  ghost function Measure(s: State): (n: nat) {
    3 * |s.queue| + 2 * |s.running| + |s.finishing|
    + (match s.worker case Receiving => 2 case Draining => 1 case Signalled => 0)
  }

  /** A step of the worker or of a task, as opposed to one of a caller. */
  predicate Internal(step: Step) {
    step.Receive? || step.SendResult? || step.Finish? || step.Cancel? || step.ExitLoop? || step.Signal?
  }

  /** After shutdown, the worker and the tasks never get stuck before completion is signalled. */
  lemma ShutdownNotStuck(s: State)
    requires Inv(s) && !s.open && s.worker != Signalled
    ensures exists step :: Internal(step) && Enabled(s, step)
  {
    if s.finishing != {} {
      var id :| id in s.finishing;
      assert Enabled(s, Finish(id));
    } else if s.running != {} {
      var id :| id in s.running;
      assert Enabled(s, SendResult(id));
    } else if s.worker == Draining {
      assert Enabled(s, Signal);
    } else if s.queue != [] {
      assert Enabled(s, Receive);
    } else {
      assert Enabled(s, ExitLoop);
    }
  }

  lemma Moved(from: set<Id>, to: set<Id>, id: Id)
    requires id in from && id !in to
    ensures |from - {id}| == |from| - 1 && |to + {id}| == |to| + 1
  {
  }

  /** Who moves was not yet where it moves to. */
  lemma MovesElsewhere(s: State, step: Step)
    requires Inv(s) && Enabled(s, step)
    ensures step.Receive? ==> s.queue[0] !in s.running
    ensures step.SendResult? ==> step.id !in s.finishing
  {
    if step.Receive? {
      assert s.queue[0] in Queued(s);
    }
  }

  lemma ReceiveMeasure(s: State, t: State)
    requires s.worker == Receiving && s.queue != [] && s.queue[0] !in s.running && t == Next(s, Receive)
    ensures Measure(t) < Measure(s)
  {
    Moved({s.queue[0]}, s.running, s.queue[0]);
  }

  lemma SendMeasure(s: State, id: Id, t: State)
    requires id in s.running && id !in s.finishing && t == Next(s, SendResult(id))
    ensures Measure(t) < Measure(s)
  {
    Moved(s.running, s.finishing, id);
  }

  lemma EndMeasure(s: State, step: Step, t: State)
    requires step.Finish? || step.Cancel?
    requires Enabled(s, step) && t == Next(s, step)
    ensures Measure(t) < Measure(s)
  {
    Moved(if step.Finish? then s.finishing else s.running, {}, step.id);
  }

  /** Every such step brings completion closer, and no caller can push it back. */
  lemma ShutdownProgresses(s: State, step: Step)
    requires Inv(s) && Enabled(s, step) && !s.open
    ensures Measure(Next(s, step)) <= Measure(s)
    ensures Internal(step) ==> Measure(Next(s, step)) < Measure(s)
  {
    hide Inv, Spawned;
    MovesElsewhere(s, step);
    var t := Next(s, step);
    match step
    case Receive => ReceiveMeasure(s, t);
    case SendResult(id) => SendMeasure(s, id, t);
    case Finish(_) => EndMeasure(s, step, t);
    case Cancel(_) => EndMeasure(s, step, t);
    case _ =>
  }

  /** How many steps of the worker and the tasks there are from i up to j. */
  ghost function InternalSteps(steps: seq<Step>, i: nat, j: nat): (n: nat)
    requires i <= j <= |steps|
    decreases j
  {
    if i == j then 0 else InternalSteps(steps, i, j - 1) + (if Internal(steps[j - 1]) then 1 else 0)
  }

  /** Shutdown completes: once the worker and the tasks have made as many steps as there was work left
      at shutdown, in any interleaving with callers, completion has been signalled. */
  lemma {:induction false} ShutdownCompletes(run: seq<State>, steps: seq<Step>, i: nat, j: nat)
    requires IsRun(run, steps) && i <= j < |run| && !run[i].open
    ensures Measure(run[j]) + InternalSteps(steps, i, j) <= Measure(run[i])
    ensures InternalSteps(steps, i, j) >= Measure(run[i]) ==> run[j].worker == Signalled
    decreases j
  {
    hide Next, Enabled, Inv;
    if i < j {
      ShutdownCompletes(run, steps, i, j - 1);
      RunKeepsInv(run, steps, j - 1);
      NoneAcceptedAfterShutdown(run, steps, i, j - 1);
      assert run[j - 1 + 1] == Next(run[j - 1], steps[j - 1]);
      ShutdownProgresses(run[j - 1], steps[j - 1]);
    }
  }
}
