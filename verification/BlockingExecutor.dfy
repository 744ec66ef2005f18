/**
 The elastic blocking executor as a monitor protocol: any number of submitters and workers and one
 destructor.  A step is a critical section under the mutex, or an action outside it: running a
 task, a condition-variable notification, a timeout or a spurious wake-up.
 */
module BlockingExecutor {

  type Task = nat
  type Worker = nat

  datatype Config = Config(minWorkers: nat, maxWorkers: nat)

  /** The constructor's corrections of the sizes. */
  function MakeConfig(minWorkers: nat, maxWorkers: nat): (c: Config)
    ensures 0 < c.maxWorkers && c.minWorkers <= c.maxWorkers
    ensures c.maxWorkers == if maxWorkers == 0 then 1 else maxWorkers
    ensures c.minWorkers == minWorkers || (c.minWorkers == c.maxWorkers < minWorkers)
  {
    var most := if maxWorkers > 0 then maxWorkers else 1;
    Config(if minWorkers > most then most else minWorkers, most)
  }

  /** The fields guarded by the mutex. */
  datatype Monitor = Monitor(tasks: seq<Task>, workerCount: nat, idleWorkers: nat, stopping: bool)

  /** Where a worker thread is. */
  datatype Pc =
    | Starting(task: Task)                       // spawned, not begun
    | Running(task: Task)
    | Entering                                   // about to lock the mutex
    | Waiting(canTimeOut: bool)                  // blocked on the task condition
    | Woken(canTimeOut: bool, timedOut: bool)    // out of the condition, about to lock again

  type Workers = map<Worker, Pc>

  datatype Destructor = NotCalled | Blocked | Notified | Returned

  datatype Place = Queued | HeldBy(worker: Worker) | Finished

  /** `place` records where each accepted task is and `runs` how often it was started. */
  datatype State = State(
    m: Monitor,
    workers: Workers,
    notifies: nat,          // submitters that left the critical section and still have to notify
    destructor: Destructor,
    place: map<Task, Place>,
    runs: map<Task, nat>)

  datatype Step =
    | Submit(task: Task, worker: Worker)   // `worker` names the thread if one is spawned
    | Notify(worker: Worker)               // `worker` is the one chosen if any is waiting
    | Begin(worker: Worker)
    | Finish(worker: Worker)
    | Enter(worker: Worker)
    | Timeout(worker: Worker)
    | Spurious(worker: Worker)
    | Destroy
    | Resume

  function Init(): State {
    State(Monitor([], 0, 0, false), map[], 0, NotCalled, map[], map[])
  }

  // ---- the steps -------------------------------------------------------------------------------

  function Enqueue(s: State, task: Task): State {
    s.(m := s.m.(tasks := s.m.tasks + [task]), place := s.place[task := Queued], runs := s.runs[task := 0])
  }

  /** submit(): the critical section. */
  function SubmitStep(c: Config, s: State, task: Task, w: Worker): State {
    if s.m.stopping then s
    else if s.m.idleWorkers > 0 then Enqueue(s, task).(notifies := s.notifies + 1)
    else if s.m.workerCount < c.maxWorkers then
      s.(m := s.m.(workerCount := s.m.workerCount + 1), workers := s.workers[w := Starting(task)],
         place := s.place[task := HeldBy(w)], runs := s.runs[task := 0])
    else Enqueue(s, task)
  }

  function Started(runs: map<Task, nat>, task: Task): map<Task, nat> {
    runs[task := if task in runs then runs[task] + 1 else 1]
  }

  function Less(n: nat): nat { if n == 0 then 0 else n - 1 }

  function Retire(s: State, w: Worker): State {
    var left := Less(s.m.workerCount);
    s.(m := s.m.(workerCount := left), workers := s.workers - {w},
       destructor := if s.m.stopping && left == 0 && s.destructor.Blocked? then Notified else s.destructor)
  }

  /** The top of the worker's loop, with the mutex held. */
  function LoopTop(c: Config, s: State, w: Worker): State {
    if s.m.tasks == [] && !s.m.stopping then
      s.(m := s.m.(idleWorkers := s.m.idleWorkers + 1),
         workers := s.workers[w := Waiting(s.m.workerCount > c.minWorkers)])
    else if s.m.tasks == [] then Retire(s, w)
    else
      s.(m := s.m.(tasks := s.m.tasks[1..]), workers := s.workers[w := Running(s.m.tasks[0])],
         place := s.place[s.m.tasks[0] := HeldBy(w)], runs := Started(s.runs, s.m.tasks[0]))
  }

  /** The worker locks the mutex: at the top of its loop, or inside the wait it was woken from. */
  function EnterStep(c: Config, s: State, w: Worker): State
    requires w in s.workers
  {
    match s.workers[w]
    case Entering => LoopTop(c, s, w)
    case Woken(canTimeOut, timedOut) =>
      if !timedOut && !s.m.stopping && s.m.tasks == [] then
        s.(workers := s.workers[w := Waiting(canTimeOut)])
      else
        var out := s.(m := s.m.(idleWorkers := Less(s.m.idleWorkers)), workers := s.workers[w := Entering]);
        if !s.m.stopping && s.m.tasks == [] && s.m.workerCount > c.minWorkers then Retire(out, w)
        else LoopTop(c, out, w)
    case _ => s
  }

  function Wake(s: State, w: Worker, timedOut: bool): State {
    if w in s.workers && s.workers[w].Waiting?
    then s.(workers := s.workers[w := Woken(s.workers[w].canTimeOut, timedOut)]) else s
  }

  function WakeAll(workers: Workers): Workers {
    map w | w in workers :: if workers[w].Waiting? then Woken(workers[w].canTimeOut, false) else workers[w]
  }

  /** One step; a step that its worker is not ready for changes nothing. */
  function Next(c: Config, s: State, step: Step): State {
    match step
    case Submit(task, w) => SubmitStep(c, s, task, w)
    case Notify(w) => if s.notifies == 0 then s else Wake(s.(notifies := s.notifies - 1), w, false)
    case Begin(w) =>
      if w in s.workers && s.workers[w].Starting? then
        var task := s.workers[w].task;
        s.(workers := s.workers[w := Running(task)], runs := Started(s.runs, task))
      else s
    case Finish(w) =>
      if w in s.workers && s.workers[w].Running?
      then s.(workers := s.workers[w := Entering], place := s.place[s.workers[w].task := Finished])
      else s
    case Enter(w) => if w in s.workers then EnterStep(c, s, w) else s
    case Timeout(w) =>
      if w in s.workers && s.workers[w].Waiting? && s.workers[w].canTimeOut then Wake(s, w, true) else s
    case Spurious(w) => Wake(s, w, false)
    case Destroy =>
      if s.destructor.NotCalled? then
        s.(m := s.m.(stopping := true), workers := WakeAll(s.workers),
           destructor := if s.m.workerCount == 0 then Returned else Blocked)
      else s
    case Resume =>
      if s.destructor.Blocked? || s.destructor.Notified? then
        s.(destructor := if s.m.workerCount == 0 then Returned else Blocked)
      else s
  }

  /** Submitted tasks are told apart, a new thread is new, and a notification reaches a waiter if any. */
  ghost predicate Enabled(s: State, step: Step) {
    match step
    case Submit(task, w) => task !in s.place && w !in s.workers
    case Notify(w) => (exists v :: v in s.workers && s.workers[v].Waiting?) ==> w in s.workers && s.workers[w].Waiting?
    case _ => true
  }

  // ---- counting workers ------------------------------------------------------------------------

  function Idle(workers: Workers): set<Worker> {
    set w | w in workers && (workers[w].Waiting? || workers[w].Woken?)
  }

  ghost predicate Counted(c: Config, m: Monitor, workers: Workers) {
    m.workerCount == |workers| <= c.maxWorkers && m.idleWorkers == |Idle(workers)|
  }

  lemma IdleMove(workers: Workers, w: Worker, pc: Pc)
    ensures pc.Waiting? || pc.Woken? ==> Idle(workers[w := pc]) == Idle(workers) + {w}
    ensures !pc.Waiting? && !pc.Woken? ==> Idle(workers[w := pc]) == Idle(workers) - {w}
    ensures w in workers ==> |workers[w := pc]| == |workers|
    ensures w !in workers ==> |workers[w := pc]| == |workers| + 1
  {
    assert workers[w := pc].Keys == workers.Keys + {w};
  }

  lemma IdleLeave(workers: Workers, w: Worker)
    requires w in workers
    ensures Idle(workers - {w}) == Idle(workers) - {w} && |workers - {w}| == |workers| - 1
  {
    assert (workers - {w}).Keys == workers.Keys - {w};
  }

  lemma LoopTopCounts(c: Config, s: State, w: Worker)
    requires Counted(c, s.m, s.workers) && w in s.workers && s.workers[w].Entering?
    ensures Counted(c, LoopTop(c, s, w).m, LoopTop(c, s, w).workers)
  {
    if s.m.tasks == [] {
      IdleMove(s.workers, w, Waiting(s.m.workerCount > c.minWorkers));
      IdleLeave(s.workers, w);
    } else {
      IdleMove(s.workers, w, Running(s.m.tasks[0]));
    }
  }

  lemma EnterCounts(c: Config, s: State, w: Worker)
    requires Counted(c, s.m, s.workers) && w in s.workers
    ensures Counted(c, EnterStep(c, s, w).m, EnterStep(c, s, w).workers)
  {
    hide LoopTop;
    if s.workers[w].Entering? {
      LoopTopCounts(c, s, w);
    } else if s.workers[w].Woken? {
      var out := s.(m := s.m.(idleWorkers := Less(s.m.idleWorkers)), workers := s.workers[w := Entering]);
      IdleMove(s.workers, w, Waiting(s.workers[w].canTimeOut));
      IdleMove(s.workers, w, Entering);
      assert w in Idle(s.workers);
      LoopTopCounts(c, out, w);
      IdleLeave(out.workers, w);
    }
  }

  lemma WakeCounts(c: Config, s: State, w: Worker, timedOut: bool)
    requires Counted(c, s.m, s.workers)
    ensures Counted(c, s.m, Wake(s, w, timedOut).workers)
  {
    if w in s.workers && s.workers[w].Waiting? {
      IdleMove(s.workers, w, Woken(s.workers[w].canTimeOut, timedOut));
      assert Idle(s.workers) + {w} == Idle(s.workers);
    }
  }

  lemma WakeFrame(s: State, w: Worker, timedOut: bool)
    ensures Wake(s, w, timedOut) == s.(workers := Wake(s, w, timedOut).workers)
  {
  }

  lemma SubmitCounts(c: Config, s: State, task: Task, w: Worker)
    requires Counted(c, s.m, s.workers) && w !in s.workers
    ensures Counted(c, SubmitStep(c, s, task, w).m, SubmitStep(c, s, task, w).workers)
  {
    IdleMove(s.workers, w, Starting(task));
    assert w !in Idle(s.workers);
  }

  /** A worker that is not idle before and after leaves the counts alone. */
  lemma BusyCounts(c: Config, s: State, w: Worker, pc: Pc)
    requires Counted(c, s.m, s.workers) && w in s.workers && w !in Idle(s.workers)
    requires !pc.Waiting? && !pc.Woken?
    ensures Counted(c, s.m, s.workers[w := pc])
  {
    IdleMove(s.workers, w, pc);
  }

  lemma WakeAllCounts(c: Config, s: State)
    requires Counted(c, s.m, s.workers)
    ensures Counted(c, s.m.(stopping := true), WakeAll(s.workers))
  {
    assert WakeAll(s.workers).Keys == s.workers.Keys;
    assert Idle(WakeAll(s.workers)) == Idle(s.workers);
  }

  lemma NextCounts(c: Config, s: State, step: Step)
    requires Counted(c, s.m, s.workers) && Enabled(s, step)
    ensures Counted(c, Next(c, s, step).m, Next(c, s, step).workers)
  {
    hide EnterStep, Wake, SubmitStep, WakeAll, Counted;
    match step
    case Submit(task, w) => SubmitCounts(c, s, task, w);
    case Notify(w) =>
      if s.notifies > 0 {
        WakeCounts(c, s.(notifies := s.notifies - 1), w, false);
        WakeFrame(s.(notifies := s.notifies - 1), w, false);
      }
    case Begin(w) =>
      if w in s.workers && s.workers[w].Starting? { BusyCounts(c, s, w, Running(s.workers[w].task)); }
    case Finish(w) => if w in s.workers && s.workers[w].Running? { BusyCounts(c, s, w, Entering); }
    case Enter(w) => if w in s.workers { EnterCounts(c, s, w); }
    case Timeout(w) => WakeCounts(c, s, w, true); WakeFrame(s, w, true);
    case Spurious(w) => WakeCounts(c, s, w, false); WakeFrame(s, w, false);
    case Destroy => WakeAllCounts(c, s);
    case Resume =>
  }

  // ---- the minimum of workers ------------------------------------------------------------------

  /** Before shutdown no worker leaves unless the minimum stays. */
  lemma NextKeepsMinimum(c: Config, s: State, step: Step)
    requires !s.m.stopping && Next(c, s, step).m.workerCount < s.m.workerCount
    ensures c.minWorkers <= Next(c, s, step).m.workerCount && s.m.workerCount == Next(c, s, step).m.workerCount + 1
  {
  }

  /** A worker that finds nothing to do waits, with a timeout exactly when it is above the minimum. */
  lemma IdleWaits(c: Config, s: State, w: Worker)
    requires w in s.workers && s.workers[w].Entering? && s.m.tasks == [] && !s.m.stopping
    ensures var s' := Next(c, s, Enter(w));
      w in s'.workers && s'.workers[w] == Waiting(s.m.workerCount > c.minWorkers)
      && s'.m.workerCount == s.m.workerCount && s'.m.idleWorkers == s.m.idleWorkers + 1
  {
  }

  /**
   A waiting worker whose keep-alive runs out leaves exactly when its wait has a timeout and, back under the
   mutex, there is still nothing to do and the pool is above its minimum.
   */
  lemma TimeoutRetiresIff(c: Config, s: State, w: Worker)
    requires w in s.workers && s.workers[w].Waiting? && !s.m.stopping
    ensures var s' := Next(c, Next(c, s, Timeout(w)), Enter(w));
      w !in s'.workers <==> s.workers[w].canTimeOut && s.m.tasks == [] && s.m.workerCount > c.minWorkers
  {
  }

  /** The queue is first in, first out: it grows at its end by a submit, and a worker that takes a task takes the oldest. */
  lemma NextIsFifo(c: Config, s: State, step: Step)
    ensures var s' := Next(c, s, step);
      || s'.m.tasks == s.m.tasks
      || (step.Submit? && s'.m.tasks == s.m.tasks + [step.task])
      || (step.Enter? && s.m.tasks != [] && s'.m.tasks == s.m.tasks[1..]
          && step.worker in s'.workers && s'.workers[step.worker] == Running(s.m.tasks[0]))
  {
    hide Started;
  }

  // ---- a queued task is always on its way to a worker ------------------------------------------

  ghost predicate Active(workers: Workers) {
    exists w :: w in workers && !workers[w].Waiting?
  }

  ghost predicate SomeoneWaits(workers: Workers) {
    exists w :: w in workers && workers[w].Waiting?
  }

  /** No lost wake-up: some worker is not blocked, or a submitter is about to notify a blocked one. */
  ghost predicate Attended(s: State) {
    s.m.tasks != [] ==> Active(s.workers) || (s.notifies > 0 && SomeoneWaits(s.workers))
  }

  lemma NextAttended(c: Config, s: State, step: Step)
    requires Counted(c, s.m, s.workers) && 0 < c.maxWorkers && Enabled(s, step) && Attended(s)
    ensures Attended(Next(c, s, step))
  {
    var s' := Next(c, s, step);
    match step
    case Submit(task, w) =>
      if s' != s { SubmitAttended(c, s, task, w); }
    case Notify(w) =>
      if s.notifies > 0 && w in s.workers && s.workers[w].Waiting? {
        assert w in s'.workers && s'.workers[w].Woken?;
      }
    case Begin(w) => if s' != s { assert w in s'.workers && s'.workers[w].Running?; }
    case Finish(w) => if s' != s { assert w in s'.workers && s'.workers[w].Entering?; }
    case Enter(w) =>
      if s'.m.tasks != [] && s' != s {
        assert s.m.tasks != [] && w in s'.workers && s'.workers[w].Running?;
      }
    case Timeout(w) => if s' != s { assert w in s'.workers && s'.workers[w].Woken?; }
    case Spurious(w) => if s' != s { assert w in s'.workers && s'.workers[w].Woken?; }
    case Destroy =>
      if Active(s.workers) {
        var w :| w in s.workers && !s.workers[w].Waiting?;
        assert w in WakeAll(s.workers) && !WakeAll(s.workers)[w].Waiting?;
      } else if SomeoneWaits(s.workers) {
        var w :| w in s.workers && s.workers[w].Waiting?;
        assert w in WakeAll(s.workers) && !WakeAll(s.workers)[w].Waiting?;
      }
    case Resume =>
  }

  lemma SubmitAttended(c: Config, s: State, task: Task, w: Worker)
    requires Counted(c, s.m, s.workers) && 0 < c.maxWorkers && w !in s.workers && !s.m.stopping
    ensures Attended(SubmitStep(c, s, task, w))
  {
    var s' := SubmitStep(c, s, task, w);
    if s.m.idleWorkers > 0 {
      var v :| v in Idle(s.workers);
      assert v in s'.workers && s'.workers[v] == s.workers[v];
    } else if s.m.workerCount < c.maxWorkers {
      assert w in s'.workers && !s'.workers[w].Waiting?;
    } else {
      var v :| v in s.workers.Keys;
      assert v !in Idle(s.workers);
      assert v in s'.workers && !s'.workers[v].Waiting?;
    }
  }

  /** Every queued task has an idle worker of its own, or there can be no further worker. */
  ghost predicate Provided(c: Config, m: Monitor) {
    |m.tasks| <= m.idleWorkers || m.workerCount == c.maxWorkers
  }

  /**
   A worker that was notified counts as idle until it runs, so a submit keeps this exactly when some idle
   worker is not yet spoken for, or none is idle, or the maximum is reached.
   */
  lemma SubmitProvidesIff(c: Config, s: State, task: Task, w: Worker)
    requires Counted(c, s.m, s.workers) && Provided(c, s.m) && !s.m.stopping
    ensures Provided(c, SubmitStep(c, s, task, w).m) <==>
      s.m.idleWorkers == 0 || |s.m.tasks| < s.m.idleWorkers || s.m.workerCount == c.maxWorkers
  {
  }

  // ---- every accepted task runs exactly once ---------------------------------------------------

  ghost predicate Holds(workers: Workers, w: Worker, task: Task) {
    w in workers && (workers[w].Starting? || workers[w].Running?) && workers[w].task == task
  }

  ghost predicate TaskOk(s: State, task: Task)
    requires task in s.place && task in s.runs
  {
    match s.place[task]
    case Queued => task in s.m.tasks && s.runs[task] == 0
    case HeldBy(w) => Holds(s.workers, w, task) && s.runs[task] == (if s.workers[w].Running? then 1 else 0)
    case Finished => s.runs[task] == 1
  }

  /** Each accepted task is in exactly one place, started once when it is past the queue. */
  ghost predicate Placed(s: State) {
    && s.runs.Keys == s.place.Keys
    && (forall task :: task in s.place ==> TaskOk(s, task))
    && (forall i :: 0 <= i < |s.m.tasks| ==> s.m.tasks[i] in s.place && s.place[s.m.tasks[i]] == Queued)
    && (forall i, j :: 0 <= i < j < |s.m.tasks| ==> s.m.tasks[i] != s.m.tasks[j])
    && (forall w, task :: Holds(s.workers, w, task) ==> task in s.place && s.place[task] == HeldBy(w))
  }

  ghost predicate SameHolders(a: Workers, b: Workers) {
    && (forall w :: w in a && (a[w].Starting? || a[w].Running?) ==> w in b && b[w] == a[w])
    && (forall w :: w in b && (b[w].Starting? || b[w].Running?) ==> w in a && b[w] == a[w])
  }

  lemma NobodyMoved(s: State, s': State)
    requires Placed(s) && s'.place == s.place && s'.runs == s.runs && s'.m.tasks == s.m.tasks
    requires SameHolders(s.workers, s'.workers)
    ensures Placed(s')
  {
    forall task | task in s'.place ensures TaskOk(s', task) { assert TaskOk(s, task); }
    forall w, task | Holds(s'.workers, w, task) ensures task in s'.place && s'.place[task] == HeldBy(w) {
      assert Holds(s.workers, w, task);
    }
  }

  lemma EnqueuePlaced(s: State, task: Task)
    requires Placed(s) && task !in s.place
    ensures Placed(Enqueue(s, task))
  {
    var s' := Enqueue(s, task);
    forall k | k in s'.place ensures TaskOk(s', k) {
      if k != task { assert TaskOk(s, k); } else { assert s'.m.tasks[|s.m.tasks|] == task; }
    }
  }

  lemma SpawnPlaced(c: Config, s: State, task: Task, w: Worker)
    requires Placed(s) && task !in s.place && w !in s.workers
    requires !s.m.stopping && s.m.idleWorkers == 0 && s.m.workerCount < c.maxWorkers
    ensures Placed(SubmitStep(c, s, task, w))
  {
    var s' := SubmitStep(c, s, task, w);
    forall k | k in s'.place ensures TaskOk(s', k) {
      if k != task { assert TaskOk(s, k); }
    }
    forall v, k | Holds(s'.workers, v, k) ensures k in s'.place && s'.place[k] == HeldBy(v) {
      if v != w { assert Holds(s.workers, v, k); }
    }
  }

  lemma BeginPlaced(c: Config, s: State, w: Worker)
    requires Placed(s) && w in s.workers && s.workers[w].Starting?
    ensures Placed(Next(c, s, Begin(w)))
  {
    var s', task := Next(c, s, Begin(w)), s.workers[w].task;
    assert Holds(s.workers, w, task) && TaskOk(s, task);
    forall k | k in s'.place ensures TaskOk(s', k) {
      assert TaskOk(s, k);
    }
    forall v, k | Holds(s'.workers, v, k) ensures k in s'.place && s'.place[k] == HeldBy(v) {
      assert Holds(s.workers, v, k);
    }
  }

  lemma FinishPlaced(c: Config, s: State, w: Worker)
    requires Placed(s) && w in s.workers && s.workers[w].Running?
    ensures Placed(Next(c, s, Finish(w)))
  {
    var s', task := Next(c, s, Finish(w)), s.workers[w].task;
    assert Holds(s.workers, w, task) && TaskOk(s, task);
    forall k | k in s'.place ensures TaskOk(s', k) {
      assert TaskOk(s, k);
    }
    forall v, k | Holds(s'.workers, v, k) ensures k in s'.place && s'.place[k] == HeldBy(v) {
      assert Holds(s.workers, v, k);
    }
  }

  lemma TakeKeeps(c: Config, s: State, w: Worker, k: Task)
    requires Placed(s) && w in s.workers && s.workers[w].Entering? && s.m.tasks != [] && k in s.place
    ensures var s' := LoopTop(c, s, w); k in s'.place && k in s'.runs && TaskOk(s', k)
  {
    assert TaskOk(s, k);
    if k != s.m.tasks[0] && s.place[k].Queued? {
      var i :| 0 <= i < |s.m.tasks| && s.m.tasks[i] == k;
      assert s.m.tasks[1..][i - 1] == k;
    }
  }

  /** A worker that takes the front of the queue starts a task that has not run. */
  lemma TakePlaced(c: Config, s: State, w: Worker)
    requires Placed(s) && w in s.workers && s.workers[w].Entering? && s.m.tasks != []
    ensures Placed(LoopTop(c, s, w))
  {
    var s', task := LoopTop(c, s, w), s.m.tasks[0];
    assert TaskOk(s, task);
    forall k | k in s'.place ensures TaskOk(s', k) {
      TakeKeeps(c, s, w, k);
    }
    forall v, k | Holds(s'.workers, v, k) ensures k in s'.place && s'.place[k] == HeldBy(v) {
      if v != w { assert Holds(s.workers, v, k); }
    }
  }

  lemma EnterPlaced(c: Config, s: State, w: Worker)
    requires Placed(s) && w in s.workers
    ensures Placed(EnterStep(c, s, w))
  {
    hide Placed;
    var s' := EnterStep(c, s, w);
    if s.m.tasks == [] || !(s.workers[w].Entering? || s.workers[w].Woken?) {
      NobodyMoved(s, s');
    } else if s.workers[w].Entering? {
      TakePlaced(c, s, w);
    } else {
      var out := s.(m := s.m.(idleWorkers := Less(s.m.idleWorkers)), workers := s.workers[w := Entering]);
      NobodyMoved(s, out);
      TakePlaced(c, out, w);
    }
  }

  lemma SubmitPlaced(c: Config, s: State, task: Task, w: Worker)
    requires Placed(s) && task !in s.place && w !in s.workers
    ensures Placed(SubmitStep(c, s, task, w))
  {
    hide Placed;
    if !s.m.stopping {
      if s.m.idleWorkers == 0 && s.m.workerCount < c.maxWorkers {
        SpawnPlaced(c, s, task, w);
      } else {
        EnqueuePlaced(s, task);
        NobodyMoved(Enqueue(s, task), SubmitStep(c, s, task, w));
      }
    }
  }

  lemma NextPlaced(c: Config, s: State, step: Step)
    requires Placed(s) && Enabled(s, step)
    ensures Placed(Next(c, s, step))
  {
    hide Placed, EnterStep, SubmitStep;
    match step
    case Submit(task, w) => SubmitPlaced(c, s, task, w);
    case Begin(w) => if w in s.workers && s.workers[w].Starting? { BeginPlaced(c, s, w); }
    case Finish(w) => if w in s.workers && s.workers[w].Running? { FinishPlaced(c, s, w); }
    case Enter(w) => if w in s.workers { EnterPlaced(c, s, w); }
    case _ => NobodyMoved(s, Next(c, s, step));
  }

  // ---- shutdown --------------------------------------------------------------------------------

  ghost predicate ShutsDown(s: State) {
    && (s.m.stopping <==> !s.destructor.NotCalled?)
    && (s.m.stopping ==> !SomeoneWaits(s.workers))
    && (s.destructor.Blocked? ==> s.m.workerCount > 0)
    && (s.destructor.Notified? || s.destructor.Returned? ==> s.m.workerCount == 0)
  }

  lemma NextShutsDown(c: Config, s: State, step: Step)
    requires Counted(c, s.m, s.workers) && ShutsDown(s)
    ensures ShutsDown(Next(c, s, step))
  {
    var s' := Next(c, s, step);
    if s.m.stopping && s.m.workerCount == 0 {
      assert s.workers == map[];
    }
    if s'.m.stopping {
      forall w | w in s'.workers ensures !s'.workers[w].Waiting? {
        assert s.m.stopping && w in s.workers ==> !s.workers[w].Waiting?;
      }
    }
  }

  // ---- runs ------------------------------------------------------------------------------------

  ghost predicate Consistent(c: Config, s: State) {
    Counted(c, s.m, s.workers) && Attended(s) && Placed(s) && ShutsDown(s)
  }

  function Run(c: Config, s: State, steps: seq<Step>): State {
    if steps == [] then s else Next(c, Run(c, s, steps[..|steps| - 1]), steps[|steps| - 1])
  }

  ghost predicate Legal(c: Config, s: State, steps: seq<Step>) {
    steps == [] ||
    (Legal(c, s, steps[..|steps| - 1]) && Enabled(Run(c, s, steps[..|steps| - 1]), steps[|steps| - 1]))
  }

  /** What holds in every reachable state. */
  lemma {:induction false} EveryRunIsConsistent(c: Config, steps: seq<Step>)
    requires 0 < c.maxWorkers && Legal(c, Init(), steps)
    ensures Consistent(c, Run(c, Init(), steps))
  {
    hide Next, Counted, Attended, Placed, ShutsDown, Enabled;
    if steps == [] {
      InitIsConsistent(c);
    } else {
      var before, step := Run(c, Init(), steps[..|steps| - 1]), steps[|steps| - 1];
      EveryRunIsConsistent(c, steps[..|steps| - 1]);
      NextCounts(c, before, step);
      NextAttended(c, before, step);
      NextPlaced(c, before, step);
      NextShutsDown(c, before, step);
    }
  }

  lemma InitIsConsistent(c: Config)
    ensures Consistent(c, Init())
  {
    assert Idle(map[]) == {};
  }

  lemma NextKeepsStopping(c: Config, s: State, step: Step)
    requires s.m.stopping
    ensures Next(c, s, step).m.stopping
  {
  }

  /** Once the pool has reached its minimum it does not fall below it before shutdown, in any run. */
  lemma {:induction false} MinimumIsKept(c: Config, s: State, steps: seq<Step>)
    requires c.minWorkers <= s.m.workerCount && !Run(c, s, steps).m.stopping
    ensures c.minWorkers <= Run(c, s, steps).m.workerCount
  {
    hide Next;
    if steps != [] {
      var before, step := Run(c, s, steps[..|steps| - 1]), steps[|steps| - 1];
      if before.m.stopping { NextKeepsStopping(c, before, step); }
      MinimumIsKept(c, s, steps[..|steps| - 1]);
      if Next(c, before, step).m.workerCount < before.m.workerCount { NextKeepsMinimum(c, before, step); }
    }
  }

  /** The destructor returns only when nothing is queued or running and every task ran exactly once. */
  lemma DestructorWaitsForEveryTask(c: Config, s: State)
    requires Consistent(c, s) && s.destructor.Returned?
    ensures s.workers == map[] && s.m.tasks == []
    ensures forall task :: task in s.place ==> s.place[task] == Finished && s.runs[task] == 1
  {
    assert |s.workers.Keys| == 0;
    forall task | task in s.place ensures s.place[task] == Finished && s.runs[task] == 1 {
      assert TaskOk(s, task);
    }
  }

  // ---- shutdown completes ----------------------------------------------------------------------

  function Of(workers: Workers, rank: nat): set<Worker> {
    set w | w in workers && Rank(workers[w]) == rank
  }

  function Rank(pc: Pc): nat {
    match pc
    case Starting(_) => 3
    case Running(_) => 2
    case Entering => 1
    case Woken(_, _) => 1
    case Waiting(_) => 0
  }

  /** An upper bound on the worker steps that are left once the executor is stopping. */
  function Remaining(s: State): nat {
    2 * |s.m.tasks| + Ranks(s.workers)
  }

  function Ranks(workers: Workers): nat {
    3 * |Of(workers, 3)| + 2 * |Of(workers, 2)| + |Of(workers, 1)|
  }

  lemma RanksMove(workers: Workers, w: Worker, pc: Pc)
    requires w in workers
    ensures Ranks(workers[w := pc]) == Ranks(workers) - Rank(workers[w]) + Rank(pc)
  {
    OfMove(workers, w, pc, 1);
    OfMove(workers, w, pc, 2);
    OfMove(workers, w, pc, 3);
  }

  lemma OfMove(workers: Workers, w: Worker, pc: Pc, rank: nat)
    requires w in workers
    ensures |Of(workers[w := pc], rank)|
            == |Of(workers, rank)| - (if Rank(workers[w]) == rank then 1 else 0) + (if Rank(pc) == rank then 1 else 0)
  {
    var others := Of(workers, rank) - {w};
    assert Of(workers[w := pc], rank) == if Rank(pc) == rank then others + {w} else others;
    assert Of(workers, rank) == if Rank(workers[w]) == rank then others + {w} else others;
  }

  lemma RanksLeave(workers: Workers, w: Worker)
    requires w in workers
    ensures Ranks(workers - {w}) == Ranks(workers) - Rank(workers[w])
  {
    OfLeave(workers, w, 1);
    OfLeave(workers, w, 2);
    OfLeave(workers, w, 3);
  }

  lemma OfLeave(workers: Workers, w: Worker, rank: nat)
    requires w in workers
    ensures |Of(workers - {w}, rank)| == |Of(workers, rank)| - (if Rank(workers[w]) == rank then 1 else 0)
  {
    assert Of(workers - {w}, rank) == Of(workers, rank) - {w};
  }

  /** The step a worker takes next while the executor is stopping. */
  function NextOf(workers: Workers, w: Worker): Step
    requires w in workers
  {
    match workers[w]
    case Starting(_) => Begin(w)
    case Running(_) => Finish(w)
    case _ => Enter(w)
  }

  /** While stopping, no worker is stuck and each step of any worker brings the end closer. */
  lemma StoppingStepsProgress(c: Config, s: State, w: Worker)
    requires ShutsDown(s) && s.m.stopping && w in s.workers
    ensures Enabled(s, NextOf(s.workers, w))
    ensures Remaining(Next(c, s, NextOf(s.workers, w))) < Remaining(s)
    ensures Next(c, s, NextOf(s.workers, w)).m.stopping
  {
    hide Ranks;
    match s.workers[w]
    case Starting(task) => RanksMove(s.workers, w, Running(task));
    case Running(task) => RanksMove(s.workers, w, Entering);
    case Entering => StoppingTop(c, s, w);
    case Woken(canTimeOut, timedOut) =>
      var out := s.(m := s.m.(idleWorkers := Less(s.m.idleWorkers)), workers := s.workers[w := Entering]);
      RanksMove(s.workers, w, Entering);
      StoppingTop(c, out, w);
    case Waiting(_) => assert false;
  }

  /** ... and no step of anybody moves it away, so every run that keeps scheduling the workers ends. */
  lemma StoppingNeverRecedes(c: Config, s: State, step: Step)
    requires ShutsDown(s) && s.m.stopping
    ensures Remaining(Next(c, s, step)) <= Remaining(s) && Next(c, s, step).m.stopping
  {
    hide Ranks;
    match step
    case Begin(w) => if w in s.workers && s.workers[w].Starting? { StoppingStepsProgress(c, s, w); }
    case Finish(w) => if w in s.workers && s.workers[w].Running? { StoppingStepsProgress(c, s, w); }
    case Enter(w) =>
      if w in s.workers && (s.workers[w].Entering? || s.workers[w].Woken?) { StoppingStepsProgress(c, s, w); }
    case _ =>
  }

  lemma StoppingTop(c: Config, s: State, w: Worker)
    requires s.m.stopping && w in s.workers && s.workers[w].Entering?
    ensures Remaining(LoopTop(c, s, w)) < Remaining(s) && LoopTop(c, s, w).m.stopping
  {
    hide Ranks;
    if s.m.tasks == [] {
      RanksLeave(s.workers, w);
    } else {
      RanksMove(s.workers, w, Running(s.m.tasks[0]));
    }
  }

  lemma {:induction false} RunAppend(c: Config, s: State, a: seq<Step>, b: seq<Step>)
    ensures Run(c, s, a + b) == Run(c, Run(c, s, a), b)
    ensures Legal(c, s, a) && Legal(c, Run(c, s, a), b) ==> Legal(c, s, a + b)
    decreases |b|
  {
    hide Next, Enabled;
    if b == [] {
      assert a + b == a;
    } else {
      RunAppend(c, s, a, b[..|b| - 1]);
      assert (a + b)[..|a + b| - 1] == a + b[..|b| - 1];
    }
  }

  /** A called destructor can always return, after at most `Remaining` worker steps. */
  lemma {:induction false} ShutdownCompletes(c: Config, s: State) returns (steps: seq<Step>)
    requires Consistent(c, s) && s.m.stopping
    ensures Legal(c, s, steps) && Run(c, s, steps).destructor.Returned? && |steps| <= Remaining(s) + 1
    decreases Remaining(s)
  {
    hide Next, Placed, Attended, Remaining;
    if s.workers == map[] {
      steps := [] + [Resume];
      assert Legal(c, s, []) && Run(c, s, []) == s;
      ResumeReturns(c, s);
      assert steps[..0] == [];
    } else {
      var w :| w in s.workers;
      var step := NextOf(s.workers, w);
      StoppingStepsProgress(c, s, w);
      NextCounts(c, s, step);
      NextAttended(c, s, step);
      NextPlaced(c, s, step);
      NextShutsDown(c, s, step);
      var rest := ShutdownCompletes(c, Next(c, s, step));
      assert [step][..0] == [] && Run(c, s, []) == s && Legal(c, s, []);
      assert Run(c, s, [step]) == Next(c, s, step) && Legal(c, s, [step]);
      RunAppend(c, s, [step], rest);
      steps := [step] + rest;
    }
  }

  lemma ResumeReturns(c: Config, s: State)
    requires Counted(c, s.m, s.workers) && ShutsDown(s) && s.m.stopping && s.workers == map[]
    ensures Next(c, s, Resume).destructor.Returned?
  {
  }

  // ---- a task that waits below the maximum -----------------------------------------------------

  lemma OneStep(c: Config, s: State, steps: seq<Step>, step: Step)
    ensures Run(c, s, steps + [step]) == Next(c, Run(c, s, steps), step)
    ensures Legal(c, s, steps) && Enabled(Run(c, s, steps), step) ==> Legal(c, s, steps + [step])
  {
    hide Next, Enabled;
    assert (steps + [step])[..|steps|] == steps;
  }

  /** One worker that has run task 0 and waits for more. */
  function OneIdle(): State {
    State(Monitor([], 1, 1, false), map[0 := Waiting(true)], 0, NotCalled, map[0 := Finished], map[0 := 1])
  }

  lemma WorkerFallsIdle() returns (steps: seq<Step>)
    ensures Legal(Config(0, 2), Init(), steps) && Run(Config(0, 2), Init(), steps) == OneIdle()
  {
    hide Run, Legal;
    var c := Config(0, 2);
    steps := NoSteps(c, Init());
    OneStep(c, Init(), steps, Submit(0, 0));
    OneStep(c, Init(), steps + [Submit(0, 0)], Begin(0));
    OneStep(c, Init(), steps + [Submit(0, 0)] + [Begin(0)], Finish(0));
    OneStep(c, Init(), steps + [Submit(0, 0)] + [Begin(0)] + [Finish(0)], Enter(0));
    steps := steps + [Submit(0, 0)] + [Begin(0)] + [Finish(0)] + [Enter(0)];
  }

  lemma NoSteps(c: Config, s: State) returns (steps: seq<Step>)
    ensures steps == [] && Legal(c, s, steps) && Run(c, s, steps) == s
  {
    steps := [];
  }

  /** Two submits after a worker fell idle: the second task stays queued behind the first, below the maximum. */
  lemma QueuedBelowMaximum() returns (steps: seq<Step>)
    ensures Legal(Config(0, 2), Init(), steps)
    ensures var s := Run(Config(0, 2), Init(), steps);
      && s.m.tasks == [2] && s.m.workerCount == 1 && s.workers == map[0 := Running(1)] && s.notifies == 0
  {
    hide Run, Legal;
    var c := Config(0, 2);
    var idle := WorkerFallsIdle();
    OneStep(c, Init(), idle, Submit(1, 1));
    OneStep(c, Init(), idle + [Submit(1, 1)], Notify(0));
    OneStep(c, Init(), idle + [Submit(1, 1)] + [Notify(0)], Submit(2, 1));
    var both := idle + [Submit(1, 1)] + [Notify(0)] + [Submit(2, 1)];
    OneStep(c, Init(), both, Enter(0));
    OneStep(c, Init(), both + [Enter(0)], Notify(0));
    steps := both + [Enter(0)] + [Notify(0)];
  }
}
