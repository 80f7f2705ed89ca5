/** A future that is rescued into a background task when it is dropped before it is done, racing with
    the receivers of that task being dropped. */
module CancellationSafe {

  /** How far the drop of the future has come. The slot is locked from `Locked` to `Stored`. */
  datatype Phase = Alive | Locked | Rescuing | Spawned | Stored | Released

  datatype TaskState = NotSpawned | Running | Completed | Aborted

  /** The future, the shared receiver state and the rescue task. `receivers` counts the external handles;
      the future holds one more reference until it is released. `watched` remembers whether some external
      handle has been there all the time since the drop began. */
  datatype State = State(
    done: bool, hasInner: bool, phase: Phase, receivers: nat,
    slotFilled: bool, task: TaskState, watched: bool)

  function Refs(s: State): nat {
    s.receivers + (if s.phase == Released then 0 else 1)
  }

  function Init(receivers: nat): State {
    State(false, true, Alive, receivers, false, NotSpawned, false)
  }

  /** Dropping the last reference to the shared state aborts a stored task. */
  function WithoutLast(s: State): State {
    if Refs(s) == 0 && s.slotFilled && s.task == Running then s.(task := Aborted) else s
  }

  datatype Step =
    | PollReady          // the future is polled and finishes
    | BeginDrop          // drop: not done, takes the lock
    | EndDropDone        // drop of a finished future: nothing but releasing the reference
    | CheckReceivers     // under the lock: is there any other reference?
    | Spawn              // move the inner future into a task
    | Store              // keep the handle of that task in the slot
    | Release            // unlock and give up the reference
    | CloneReceiver
    | DropReceiver
    | TaskCompletes      // the rescued task finishes on its own

  predicate Enabled(s: State, step: Step) {
    match step
    case PollReady => s.phase == Alive && !s.done
    case BeginDrop => s.phase == Alive && !s.done
    case EndDropDone => s.phase == Alive && s.done
    case CheckReceivers => s.phase == Locked
    case Spawn => s.phase == Rescuing
    case Store => s.phase == Spawned
    case Release => s.phase == Stored
    case CloneReceiver => s.receivers > 0
    case DropReceiver => s.receivers > 0
    case TaskCompletes => s.task == Running
  }

  function Next(s: State, step: Step): State
    requires Enabled(s, step)
  {
    match step
    case PollReady => s.(done := true)
    case BeginDrop => s.(phase := Locked, watched := s.receivers > 0)
    case EndDropDone => WithoutLast(s.(phase := Released))
    case CheckReceivers => s.(phase := if Refs(s) > 1 then Rescuing else Stored)
    case Spawn => s.(hasInner := false, task := Running, phase := Spawned)
    case Store => s.(slotFilled := true, phase := Stored)
    case Release => WithoutLast(s.(phase := Released))
    case CloneReceiver => s.(receivers := s.receivers + 1)
    case DropReceiver =>
      var t := s.(receivers := s.receivers - 1);
      WithoutLast(t.(watched := t.watched && t.receivers > 0))
    case TaskCompletes => s.(task := Completed)
  }

  ghost predicate Inv(s: State) {
    // the inner future moves into the task, and the handle into the slot, in the course of the drop
    && (s.hasInner <==> s.task == NotSpawned)
    && (s.task != NotSpawned ==> !s.done && (s.phase == Spawned || s.phase == Stored || s.phase == Released))
    && (s.slotFilled <==> s.task != NotSpawned && s.phase != Spawned)
    && (s.phase == Spawned ==> s.task != NotSpawned)
    && (s.done ==> s.phase == Alive || s.phase == Released)
    // nobody can reach the task any more once all references are gone, so it must not run
    && (s.receivers == 0 && s.phase == Released ==> s.task != Running)
    && (s.task == Aborted ==> s.receivers == 0 && s.phase == Released)
    // a handle that was there all along sees the rescue
    && (s.watched ==> s.receivers > 0 && s.phase != Alive)
    && (s.watched && (s.phase == Stored || s.phase == Released) ==> s.slotFilled)
  }

  /** The states of a run, one step at a time. */
  ghost predicate IsRun(run: seq<State>, steps: seq<Step>) {
    && |run| == |steps| + 1
    && (exists n: nat :: run[0] == Init(n))
    && forall i :: 0 <= i < |steps| ==> Enabled(run[i], steps[i]) && run[i + 1] == Next(run[i], steps[i])
  }

  lemma StepKeepsInv(s: State, step: Step)
    requires Inv(s) && Enabled(s, step)
    ensures Inv(Next(s, step))
  {
  }

  lemma {:induction false} RunKeepsInv(run: seq<State>, steps: seq<Step>, k: nat)
    requires IsRun(run, steps) && k < |run|
    ensures Inv(run[k])
  {
    if k != 0 {
      RunKeepsInv(run, steps, k - 1);
      StepKeepsInv(run[k - 1], steps[k - 1]);
    }
  }

  /** In no interleaving does a rescued task go on running after the last reference is gone, or is it aborted before. */
  lemma NoLeakedTask(run: seq<State>, steps: seq<Step>, k: nat)
    requires IsRun(run, steps) && k < |run|
    ensures run[k].receivers == 0 && run[k].phase == Released ==> run[k].task != Running
    ensures run[k].task == Aborted ==> run[k].receivers == 0 && run[k].phase == Released
  {
    RunKeepsInv(run, steps, k);
  }

  /** A future that was dropped unfinished, while some receiver was held from the start of the drop until
      it was over, has been spawned, and its handle is stored: it runs on or has completed. */
  lemma RescuedWhileHeld(run: seq<State>, steps: seq<Step>, b: nat, e: nat)
    requires IsRun(run, steps) && b < |steps| && steps[b] == BeginDrop && b < e < |run|
    requires run[e].phase == Released
    requires forall i :: b <= i <= e ==> run[i].receivers > 0
    ensures run[e].slotFilled && (run[e].task == Running || run[e].task == Completed)
  {
    RunKeepsInv(run, steps, b);
    StillWatched(run, steps, b, e);
    RunKeepsInv(run, steps, e);
    NotAborted(run, steps, b, e);
  }

  lemma {:induction false} StillWatched(run: seq<State>, steps: seq<Step>, b: nat, e: nat)
    requires IsRun(run, steps) && b < |steps| && steps[b] == BeginDrop && b < e < |run|
    requires forall i :: b <= i <= e ==> run[i].receivers > 0
    ensures run[e].watched && run[e].phase != Alive
    decreases e
  {
    hide Next, Enabled;
    if b + 1 < e {
      StillWatched(run, steps, b, e - 1);
    }
    assert run[e - 1 + 1] == Next(run[e - 1], steps[e - 1]);
    WatchedStep(run[e - 1], steps[e - 1]);
  }

  lemma WatchedStep(s: State, step: Step)
    requires Enabled(s, step) && s.receivers > 0 && Next(s, step).receivers > 0
    requires step == BeginDrop || (s.watched && s.phase != Alive)
    ensures Next(s, step).watched && Next(s, step).phase != Alive
  {
  }

  lemma {:induction false} NotAborted(run: seq<State>, steps: seq<Step>, b: nat, e: nat)
    requires IsRun(run, steps) && b <= e < |run| && run[b].task == NotSpawned
    requires forall i :: b <= i <= e ==> run[i].receivers > 0
    ensures run[e].task != Aborted
    decreases e
  {
    hide Next, Enabled;
    if b < e {
      NotAborted(run, steps, b, e - 1);
      assert run[e - 1 + 1] == Next(run[e - 1], steps[e - 1]);
      UnabortedStep(run[e - 1], steps[e - 1]);
    }
  }

  lemma UnabortedStep(s: State, step: Step)
    requires Enabled(s, step) && s.task != Aborted && Next(s, step).receivers > 0
    ensures Next(s, step).task != Aborted
  {
  }

  /** Without any other reference at the check, nothing is spawned: the future is just cancelled. */
  lemma NobodyWaiting(s: State)
    requires Inv(s) && s.phase == Locked && s.receivers == 0
    ensures Next(s, CheckReceivers).phase == Stored && Next(s, CheckReceivers).task == NotSpawned
    ensures Next(Next(s, CheckReceivers), Release).task == NotSpawned
  {
  }

  /** The states reached from one by given steps, one after the other. */
  ghost function After(s: State, steps: seq<Step>): State
    requires CanTake(s, steps)
    decreases |steps|
  {
    if steps == [] then s else After(Next(s, steps[0]), steps[1..])
  }

  ghost predicate CanTake(s: State, steps: seq<Step>)
    decreases |steps|
  {
    steps == [] || (Enabled(s, steps[0]) && CanTake(Next(s, steps[0]), steps[1..]))
  }

  /** Dropping an unfinished future that is waited for starts a task and stores its handle; dropping the last receiver
      then aborts the task. */
  lemma WaitedForIsRescued(n: nat)
    requires n > 0
    ensures
      var rescue := [BeginDrop, CheckReceivers, Spawn, Store, Release];
      && CanTake(Init(n), rescue)
      && After(Init(n), rescue) == State(false, false, Released, n, true, Running, true)
      && Next(After(Init(n), rescue), DropReceiver) ==
         State(false, false, Released, n - 1, true, if n == 1 then Aborted else Running, n > 1)
  {
    hide CanTake, After;
    var s := Init(n);
    var t := Next(s, BeginDrop);
    var u := Next(t, CheckReceivers);
    var v := Next(u, Spawn);
    var w := Next(v, Store);
    var rest := [Spawn, Store, Release];
    assert [BeginDrop] + ([CheckReceivers] + rest) == [BeginDrop, CheckReceivers, Spawn, Store, Release];
    assert [Spawn] + ([Store] + ([Release] + [])) == rest;
    TakeOne(s, BeginDrop, [CheckReceivers] + rest);
    TakeOne(t, CheckReceivers, rest);
    TakeOne(u, Spawn, [Store] + ([Release] + []));
    TakeOne(v, Store, [Release] + []);
    TakeOne(w, Release, []);
    TakeNone(Next(w, Release));
  }

  /** Without receivers nothing is started, and nothing is either for a future that is done. */
  lemma OthersAreNot(n: nat)
    ensures
      var cancel := [BeginDrop, CheckReceivers, Release];
      CanTake(Init(0), cancel) && After(Init(0), cancel) == State(false, true, Released, 0, false, NotSpawned, false)
    ensures
      var done := [PollReady, EndDropDone];
      CanTake(Init(n), done) && After(Init(n), done) == State(true, true, Released, n, false, NotSpawned, false)
  {
    hide CanTake, After;
    var s := Init(0);
    var t := Next(s, BeginDrop);
    var u := Next(t, CheckReceivers);
    assert [BeginDrop] + ([CheckReceivers] + ([Release] + [])) == [BeginDrop, CheckReceivers, Release];
    assert [PollReady] + ([EndDropDone] + []) == [PollReady, EndDropDone];
    TakeOne(s, BeginDrop, [CheckReceivers] + ([Release] + []));
    TakeOne(t, CheckReceivers, [Release] + []);
    TakeOne(u, Release, []);
    TakeNone(Next(u, Release));
    TakeOne(Init(n), PollReady, [EndDropDone] + []);
    TakeOne(Next(Init(n), PollReady), EndDropDone, []);
    TakeNone(Next(Next(Init(n), PollReady), EndDropDone));
  }

  lemma TakeNone(s: State)
    ensures CanTake(s, []) && After(s, []) == s
  {
  }

  lemma TakeOne(s: State, step: Step, rest: seq<Step>)
    requires Enabled(s, step)
    ensures CanTake(s, [step] + rest) <==> CanTake(Next(s, step), rest)
    ensures CanTake(Next(s, step), rest) ==> After(s, [step] + rest) == After(Next(s, step), rest)
  {
    assert ([step] + rest)[1..] == rest;
  }

  /** Nobody can get a receiver once there is none. */
  lemma {:induction false} NoneReturns(run: seq<State>, steps: seq<Step>, i: nat, k: nat)
    requires IsRun(run, steps) && i <= k < |run| && run[i].receivers == 0
    ensures run[k].receivers == 0
    decreases k
  {
    hide Next, Enabled;
    if i < k {
      NoneReturns(run, steps, i, k - 1);
      assert run[k - 1 + 1] == Next(run[k - 1], steps[k - 1]);
      StillNone(run[k - 1], steps[k - 1]);
    }
  }

  lemma StillNone(s: State, step: Step)
    requires Enabled(s, step) && s.receivers == 0
    ensures Next(s, step).receivers == 0
  {
  }
}
