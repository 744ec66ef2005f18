# Model of galay-kernel

galay-kernel is a coroutine runtime in C++: work-stealing IO schedulers, a hierarchical timing wheel,
awaitables driven by state machines, reactors, and the queues between them.  This project models the
parts whose correctness is not visible from one function body and proves what holds in every run.

- `RingProtocol`, `TaskRing`: the Chase-Lev ring, one step per atomic access under sequential
  consistency, and the same operations taken whole.  Tasks can be lost; the exact condition is proved.
- `Worker`, `SchedulerCore`, `StealDomain`: workers, ready passes and steals as whole operations, with
  conservation of tasks over all schedulers.  Tasks scheduled by resumed tasks or injected by other
  threads come from a finite script.
- `WheelMath`, `WheelStore`, `WheelSchedule`, `TimingWheel`: the five-level wheel with a clock that may
  advance between any two readings, and bounds on how late and how early a timer fires.
- `SmoothSchedule`, `Balancer`: smooth weighted round robin.
- `BlockingExecutor`: the elastic thread pool as a monitor protocol with timeouts, spurious wake-ups and
  shutdown.
- `AwaitableMachine`, `LinearMachine`: any state machine under the awaitable, with the kernel's answers
  as inputs; the linear machine of the builder and a reference interpreter for its node lists.
- `Domains`, `SlotOwnership`, `EpollReactor`: claims on the two slots of a controller, the interest mask,
  dispatch of readiness, and the coalesced registration queue against the kernel's table.
- `RecvStream`, `MpscChannel`, `MpscCounter`: the ready-receive queue against a byte stream, the prefetch
  cache against a FIFO, and the 32-bit size counter at every atomic step.

The epoll build of the conditional code is modelled, except that the ready-receive queue exists only in
the io_uring build.  Clocks, random starting points, kernel results, user machines and flow handlers are
inputs or unconstrained choices.

Six natural statements are false of the code and are given with a counterexample or their exact
condition: the ring is lossless only without reuse of a claimed slot; a timer fires up to a turn early
when it is pushed onto a lagging wheel; the values of the weighted round robin stay below kW only with
two nodes or more; a task may wait behind a running one below the maximum number of workers; a consumed
receive may report 0 without an end marker; a moved batch of 2^32 or more elements is cut.  The wheel's early
return is stricter than its loop guard, which is why the lateness bound is two ticks and not one;
`AlmostTwoTicksLate` is such a run.

`dafny verify dfyconfig.toml` checks the project.

## Model

| member | source | states |
|---|---|---|
| `RingProtocol.HandedOutAtMostOnce` | galay-kernel/kernel/io_scheduler.hpp:106-174 | In every interleaving of the single atomic accesses of one owner and any number of thieves, each task is handed out at most as often as it was pushed: accepted occurrences are handed out, in a slot, or overwritten |
| `RingProtocol.NextBalances` | galay-kernel/kernel/io_scheduler.hpp:106-174 | One access of anybody keeps that balance |
| `RingProtocol.IndicesStayOrdered` | galay-kernel/kernel/io_scheduler.hpp:106-174 | In every interleaving head, tail and the indices remembered by the owner and the thieves keep their order and their distance of at most 256 |
| `RingProtocol.LosslessIffGuarded` | galay-kernel/kernel/io_scheduler.hpp:112-116 | A run loses no task exactly when no push stores into a slot whose thief is between its head swap and its slot exchange; then every successful pop or steal yields a task and no stolen task is owner-only |
| `RingProtocol.NextSound` | galay-kernel/kernel/io_scheduler.hpp:106-174 | A guarded access keeps the correspondence of full slots with indices and claims |
| `RingProtocol.UnguardedLoses` | galay-kernel/kernel/io_scheduler.hpp:112-116 | The first store into a claimed slot overwrites a task, for every reachable state |
| `RingProtocol.LossIsForever` | galay-kernel/kernel/io_scheduler.hpp:116-116 | A lost task stays lost |
| `TaskRing.PushBackAppends` | galay-kernel/kernel/io_scheduler.hpp:106-120 | As a whole operation a push appends to the contents and is refused exactly when 256 tasks are held |
| `TaskRing.PopBackRemovesNewest` | galay-kernel/kernel/io_scheduler.hpp:122-151 | A pop removes the newest task and fails exactly on an empty ring |
| `TaskRing.StealFrontRemovesOldest` | galay-kernel/kernel/io_scheduler.hpp:153-174 | A steal removes the oldest task and fails, unchanged, exactly when there is none or it is owner-only |
| `TaskRing.PushIsUninterrupted` | galay-kernel/kernel/io_scheduler.hpp:106-120 | The accesses of a push without interference amount to the whole push |
| `TaskRing.PopIsUninterrupted` | galay-kernel/kernel/io_scheduler.hpp:122-151 | The accesses of a pop without interference amount to the whole pop, on each of its three paths |
| `TaskRing.ClaimIsUninterrupted` | galay-kernel/kernel/io_scheduler.hpp:153-170 | The first five accesses of a steal without interference claim the oldest task and leave its slot full |
| `TaskRing.StealIsUninterrupted` | galay-kernel/kernel/io_scheduler.hpp:153-174 | The accesses of a winning steal without interference amount to the whole steal |
| `TaskRing.UnguardedRunLosesTask` | galay-kernel/kernel/io_scheduler.hpp:106-174 | A concrete interleaving in which a push reuses a claimed slot, a task is lost and a later pop succeeds with nothing |
| `Worker.BatchPopsOldestFirst` | galay-kernel/kernel/io_scheduler.hpp:310-314 | On sequences: a batch pushed in reverse behind anything is popped from the back in its original order |
| `Worker.WorkerState.constructor` | galay-kernel/kernel/io_scheduler.hpp:234-242 | A fresh worker holds nothing; the inject batch is the given one, or 1 for 0; limit and interval are the given ones and the counters 0 |
| `Worker.WorkerState.EnqueueDeferred` | galay-kernel/kernel/io_scheduler.hpp:438-447 | The task goes to the back of the ring, or to the inject queue when the ring is full; the push whose result is ignored never fails |
| `Worker.WorkerState.ScheduleLocal` | galay-kernel/kernel/io_scheduler.hpp:256-268 | The new task takes the LIFO slot, the displaced one is deferred, nothing else changes; an invalid task is ignored |
| `Worker.WorkerState.ScheduleLocalDeferred` | galay-kernel/kernel/io_scheduler.hpp:274-279 | The task is appended to the inject queue |
| `Worker.WorkerState.ScheduleInjected` | galay-kernel/kernel/io_scheduler.hpp:286-294 | The task is appended to the inject queue; the answer is true exactly when the queue was empty |
| `Worker.WorkerState.PushReversed` | galay-kernel/kernel/io_scheduler.hpp:310-314 | The drain loop appends the reversed batch; every push succeeds |
| `Worker.WorkerState.DrainInjected` | galay-kernel/kernel/io_scheduler.hpp:300-320 | Moves as many tasks as fit, at most a batch, in reverse, and counts them; restarts the poll count unless the ring is full; the outstanding counter stays the length of the inject queue; no task is made or lost |
| `Worker.WorkerState.PrepareForRun` | galay-kernel/kernel/io_scheduler.hpp:350-357 | Demotes the slot task exactly when the LIFO limit is reached, and loses nothing |
| `Worker.WorkerState.PopRing` | galay-kernel/kernel/io_scheduler.hpp:375-380 | Takes the newest ring task |
| `Worker.WorkerState.PopNext` | galay-kernel/kernel/io_scheduler.hpp:364-383 | Returns the slot task, else the newest ring task; after a demotion the demoted task, or the newest ring task when the ring was full; fails exactly without local work; the task leaves what the worker holds; a slot task adds to the LIFO count, a ring task ends it and turns the slot on again |
| `Worker.WorkerState.DrainThenPop` | galay-kernel/kernel/io_scheduler.hpp:300-383 | A drained batch is popped oldest first from any ring, when nothing else is scheduled or stolen meanwhile |
| `Worker.WorkerState.StealOne` | galay-kernel/kernel/io_scheduler.hpp:783-789 | Moves the oldest task of the victim, unless it is owner-only |
| `Worker.WorkerState.StealFrom` | galay-kernel/kernel/io_scheduler.hpp:774-790 | Moves the oldest tasks of the victim in order, at most half of them or one, stopping at an owner-only task; each push succeeds and the two workers together keep their tasks |
| `Worker.WorkerState.Probe` | galay-kernel/kernel/io_scheduler.hpp:760-799 | Robs the first sibling in the circle whose oldest ring task may move; finds none exactly when there is none; every other sibling is unchanged |
| `Worker.WorkerState.TrySteal` | galay-kernel/kernel/io_scheduler.hpp:744-802 | Steals exactly when stealing is on, the worker is idle and some sibling yields; what this worker gains the first such sibling loses; nobody else changes; attempts, successes and the LIFO state change exactly then |
| `Worker.CircleGoesForward` | galay-kernel/kernel/io_scheduler.hpp:756-765 | The probes begin at the random start and go forward one sibling at a time, round the end |
| `SchedulerCore.SchedulerCore.constructor` | galay-kernel/kernel/scheduler_core.h:45-49 | The budget is at least 1 |
| `SchedulerCore.SchedulerCore.CollectRemote` | galay-kernel/kernel/scheduler_core.h:68-77 | Moves as much as the ring, the batch and the inject queue allow; afterwards the worker has local work or its inject queue is empty |
| `SchedulerCore.SchedulerCore.LookAgain` | galay-kernel/kernel/scheduler_core.h:101-115 | The second look of an idle worker: another round only if something was injected, otherwise nothing is left when it finds no task; reports exactly the tasks it drained |
| `SchedulerCore.SchedulerCore.Fetch` | galay-kernel/kernel/scheduler_core.h:95-115 | The head of the loop conserves tasks, reports exactly the tasks drained, and ends the pass only with no local and no injected task |
| `SchedulerCore.SchedulerCore.RunReadyPass` | galay-kernel/kernel/scheduler_core.h:83-129 | A pass resumes at most the budget when it starts with local work and otherwise at most the budget plus the tasks it really drained; it stops below the budget, or below what it drained when it starts without local work, only when nothing is left; accepted tasks are run, held or still to come |
| `SchedulerCore.SchedulerCore.RunLocalFollowupPasses` | galay-kernel/kernel/scheduler_core.h:131-157 | At most the given number of passes, each further one after a full pass without drains that left local work, and fewer only after one that was not; the summed budget bound, and conservation over all of them |
| `StealDomain.SumExchange` | galay-kernel/kernel/io_scheduler.hpp:774-790 | What two workers exchange does not show in the total |
| `StealDomain.StealDomain.constructor` | galay-kernel/kernel/io_scheduler.hpp:738-742 | Workers that hold nothing start with an empty ledger |
| `StealDomain.StealDomain.Offer` | galay-kernel/kernel/io_scheduler.hpp:256-294 | Scheduling on any scheduler adds the task to the accepted ones and to exactly one place |
| `StealDomain.StealDomain.Pass` | galay-kernel/kernel/scheduler_core.h:83-129 | After a ready pass accepted tasks are still exactly those run plus those held by all workers |
| `StealDomain.StealDomain.Steal` | galay-kernel/kernel/io_scheduler.hpp:744-802 | Scheduler i steals exactly when it is idle, may steal and some other scheduler yields; the ledger does not move |
| `WheelMath.LevelFor` | galay-kernel/common/timer_manager.hpp:147-167 | The lowest level whose span exceeds the delay, and the delay is at least the unit of that level |
| `WheelMath.VisitBeforeDue` | galay-kernel/common/timer_manager.hpp:228-254 | The slot of an entry is visited at most one unit before it is due |
| `WheelMath.VisitFindsSlot` | galay-kernel/common/timer_manager.hpp:288-319 | The slot computed at insertion is the slot looked at on that visit, on all five levels |
| `WheelMath.PushWithinOneTick` | galay-kernel/common/timer_manager.hpp:131-140 | The slot tick of a push is strictly less than one tick from the expiry on either side |
| `WheelMath.CascadeNotLate` | galay-kernel/common/timer_manager.hpp:355-368 | A cascade never puts a timer after its expiry |
| `WheelMath.CascadeNotEarly` | galay-kernel/common/timer_manager.hpp:355-368 | A cascade is early by no more than the lag of the tick plus one |
| `WheelSchedule.PushPunctual` | galay-kernel/common/timer_manager.hpp:131-167 | A push is punctual and not passed by the current tick, whatever the lag |
| `WheelSchedule.CascadePunctual` | galay-kernel/common/timer_manager.hpp:355-389 | A cascade is punctual, strictly ahead, never on a higher level, and never out of range |
| `WheelSchedule.ClearKeeps` | galay-kernel/common/timer_manager.hpp:288-331 | Emptying the visited slot leaves only later visits on the level |
| `WheelSchedule.SkipKeeps` | galay-kernel/common/timer_manager.hpp:231-248 | At a tick that is no visit tick the level has nothing to cascade |
| `WheelSchedule.FireKeeps` | galay-kernel/common/timer_manager.hpp:251-253 | After firing the current slot the tick can advance without passing anything |
| `WheelSchedule.SlotFiresInTime` | galay-kernel/common/timer_manager.hpp:268-283 | A timer in the current first-level slot is within its earliness bound, in turn or not |
| `WheelMath.PutBackElsewhere` | galay-kernel/common/timer_manager.hpp:367-389 | A timer put back on its own level does not land in the slot being emptied |
| `WheelSchedule.VisitedEarlyIffOutOfTurn` | galay-kernel/common/timer_manager.hpp:147-150 | A first-level slot is looked at before its entry is due exactly when the entry lies a turn or more ahead of the tick |
| `WheelSchedule.WithinTurnIffNotVisitedEarly` | galay-kernel/common/timer_manager.hpp:131-150 | A first-level push is in turn exactly when no tick looks at its slot before it is due |
| `WheelMath.LevelsNest` | galay-kernel/common/timer_manager.hpp:58-69 | 256 slots of one tick, then 64 slots each covering the level below, 2^32 ticks in all |
| `TimingWheel.LaggingPushFiresEarly` | galay-kernel/common/timer_manager.hpp:104-260 | A run of the manager (push, wait, push, tick) in which a timer fires 250 ticks early although the tick only catches up with 11 |
| `TimingWheel.AlmostTwoTicksLate` | galay-kernel/common/timer_manager.hpp:104-260 | A run of the manager (push, tick, tick) after which a timer that expired 1.8 ticks ago is still stored, so the two-tick bound cannot be one |
| `TimingWheel.Manager.NeverEarly` | galay-kernel/common/timer_manager.hpp:131-167 | Over every run: if all first-level pushes were within a turn and no tick had more than G ticks to catch up with, no timer fires G + 1 or more ticks early |
| `TimingWheel.Manager.NeverATurnEarly` | galay-kernel/common/timer_manager.hpp:131-167 | Over every run, whatever the pushes: early by less than 256 ticks or less than G + 1 |
| `WheelSchedule.StoredNotLate` | galay-kernel/common/timer_manager.hpp:217-228 | A stored timer expires later than two ticks before the time of the tick |
| `WheelSchedule.AllInTime` | galay-kernel/common/timer_manager.hpp:217-228 | The same for every slot of every level |
| `WheelStore.PlaceCounts` | galay-kernel/common/timer_manager.hpp:147-169 | Inserting adds one occurrence to all wheels together |
| `WheelStore.ClearCounts` | galay-kernel/common/timer_manager.hpp:330-331 | Taking a slot out removes exactly its occurrences |
| `WheelStore.PopCounts` | galay-kernel/common/timer_manager.hpp:280-281 | Erasing the front of a slot removes exactly one occurrence |
| `TimingWheel.Manager.constructor` | galay-kernel/common/timer_manager.hpp:83-94 | An empty wheel starting at the present |
| `TimingWheel.Manager.Cancel` | galay-kernel/common/timer.hpp:88-90 | Marks the timer; it stays stored |
| `TimingWheel.Manager.HandleTimeout` | galay-kernel/common/timer_manager.hpp:125-129 | An expired timer runs at once and is marked done |
| `TimingWheel.Manager.Observe` | galay-kernel/common/timer_manager.hpp:119-122 | An empty wheel is rebased, a non-empty one is not |
| `TimingWheel.Manager.PushAt` | galay-kernel/common/timer_manager.hpp:110-172 | Expired timers run at once and become done, out-of-range ones are refused, all others are stored once at the level and slot of their delay; the call is recorded with the wheel it found |
| `TimingWheel.Manager.Push` | galay-kernel/common/timer_manager.hpp:104-172 | The same with the clock read inside; a null timer changes nothing |
| `TimingWheel.Manager.Store` | galay-kernel/common/timer_manager.hpp:147-169 | Adds the timer to exactly one slot; alignment is lost exactly by a push out of turn |
| `TimingWheel.Manager.Admit` | galay-kernel/common/timer_manager.hpp:124-171 | Fires an expired timer, refuses one out of range with nothing changed, stores any other |
| `TimingWheel.Manager.Drop` | galay-kernel/common/timer_manager.hpp:339-342 | Only cancelled timers, or timers whose handler has run, are dropped |
| `TimingWheel.Manager.FireHeld` | galay-kernel/common/timer_manager.hpp:348-365 | An expired timer, or one less than a tick away, runs in the cascade and becomes done |
| `TimingWheel.Manager.PutBack` | galay-kernel/common/timer_manager.hpp:367-389 | A timer is put into the slot for the full ticks it has left, on this or a lower level; the discard branch is dead |
| `TimingWheel.Manager.Reschedule` | galay-kernel/common/timer_manager.hpp:338-390 | A timer of the slot is dropped exactly when done or cancelled, fired exactly when less than a tick away, else put back; higher levels and the emptied slot are untouched |
| `TimingWheel.Manager.TakeSlot` | galay-kernel/common/timer_manager.hpp:330-336 | Exactly the current slot is taken out and the lag of the cascade recorded |
| `TimingWheel.Manager.CascadeSlot` | galay-kernel/common/timer_manager.hpp:328-391 | The slot ends empty; histories grow, new firings are less than a tick early; conservation and punctuality, no promotion |
| `TimingWheel.Manager.CascadeWheel` | galay-kernel/common/timer_manager.hpp:231-248 | A level is cascaded exactly at the positive multiples of its unit; at any other tick nothing changes |
| `TimingWheel.Manager.CascadeAll` | galay-kernel/common/timer_manager.hpp:229-248 | All cascades of a tick, from the second wheel up; histories and first-level slots only grow |
| `TimingWheel.Manager.FireFront` | galay-kernel/common/timer_manager.hpp:275-281 | Runs and removes the front timer |
| `TimingWheel.Manager.ProcessWheel1` | galay-kernel/common/timer_manager.hpp:268-283 | Runs every timer of the current slot once, in order, and empties the slot; no other slot changes |
| `TimingWheel.Manager.OneTick` | galay-kernel/common/timer_manager.hpp:228-254 | One round fires the whole current first-level slot, lets the others only grow, and keeps all invariants at the next tick |
| `TimingWheel.Manager.RunTicks` | galay-kernel/common/timer_manager.hpp:228-254 | Ends past the target or empty; the first-level slots visited are fired whole, the others keep what they held |
| `TimingWheel.Manager.Reset` | galay-kernel/common/timer_manager.hpp:396-400 | An emptied wheel is rebased |
| `TimingWheel.Manager.CatchUp` | galay-kernel/common/timer_manager.hpp:227-259 | The loop leaves nothing two ticks late, fires exactly the slots it visits, and rebases an emptied wheel |
| `TimingWheel.Manager.TickAt` | galay-kernel/common/timer_manager.hpp:210-260 | For a given time: nothing two ticks late; nothing changes while the present tick is processed already; otherwise every tick up to the present one is processed, exactly the visited first-level slots are fired, the ticks from start to end are recorded, and an emptied wheel restarts |
| `TimingWheel.Manager.Tick` | galay-kernel/common/timer_manager.hpp:210-260 | After every tick every stored timer expires later than the time of the tick minus two ticks; timers leave once, by firing or idle; histories only grow; an empty wheel does nothing |
| `SmoothSchedule.Pick` | galay-kernel/common/async_strategy.hpp:147-153 | The first of the largest values |
| `SmoothSchedule.SumStaysZero` | galay-kernel/common/async_strategy.hpp:142-160 | The current weights sum to 0 after every selection |
| `SmoothSchedule.StaysAboveMinusTotal` | galay-kernel/common/async_strategy.hpp:142-160 | Each current weight stays above -W |
| `SmoothSchedule.EarnedMinusPaid` | galay-kernel/common/async_strategy.hpp:142-160 | A current weight is the earned weight minus W per selection of the node |
| `SmoothSchedule.ValuesStayBounded` | galay-kernel/common/async_strategy.hpp:147-153 | Inside a selection every value is above -W and at most kW - (k - 1) |
| `SmoothSchedule.BelowKWIffSeveral` | galay-kernel/common/async_strategy.hpp:147-153 | Every value stays strictly below kW exactly when there are two nodes or more |
| `SmoothSchedule.FitsInt32` | galay-kernel/common/async_strategy.hpp:96-104 | 32-bit arithmetic is exact when kW is below 2^31 |
| `SmoothSchedule.OneRound` | galay-kernel/common/async_strategy.hpp:142-160 | W selections pick every node exactly weight times and return to all zeros |
| `SmoothSchedule.Periodic` | galay-kernel/common/async_strategy.hpp:142-160 | The schedule repeats every W selections, so every aligned block is a round |
| `SmoothSchedule.EveryWindowIsFair` | galay-kernel/common/async_strategy.hpp:142-160 | Any W consecutive selections, aligned or not, are fair |
| `SmoothSchedule.NeverAheadOfShare` | galay-kernel/common/async_strategy.hpp:142-160 | At no moment is a node a full selection ahead of its share |
| `SmoothSchedule.NeverFarBehindShare` | galay-kernel/common/async_strategy.hpp:142-160 | How far a node can be behind its share |
| `Balancer.WeightRoundRobin.constructor` | galay-kernel/common/async_strategy.hpp:119-135 | Each node has the weight given for it (from 2^31 on 2^32 less), or 1 when the lengths differ, all current weights 0 |
| `Balancer.WeightRoundRobin.RaiseAll` | galay-kernel/common/async_strategy.hpp:147-153 | The loop raises every node and finds the first largest |
| `Balancer.WeightRoundRobin.Select` | galay-kernel/common/async_strategy.hpp:142-160 | A selection is one step of the schedule, nodes keep their values and weights; no node, no choice |
| `Balancer.WeightRoundRobin.Append` | galay-kernel/common/async_strategy.hpp:173-176 | The node is appended with the given weight (from 2^31 on 2^32 less) and current weight 0 |
| `Balancer.FullRound` | galay-kernel/common/async_strategy.hpp:119-160 | A new balancer asked as often as its weights sum to chooses every node exactly as often as its given weight, and once each when the lengths differ |
| `BlockingExecutor.MakeConfig` | galay-kernel/kernel/blocking_executor.cc:41-51 | The given maximum, at least one worker; the given minimum, cut to the maximum |
| `BlockingExecutor.NextCounts` | galay-kernel/kernel/blocking_executor.cc:86-195 | Worker and idle counters are the numbers of workers, and the maximum is never exceeded |
| `BlockingExecutor.NextAttended` | galay-kernel/kernel/blocking_executor.cc:95-113 | No lost wake-up: a non-empty queue has a worker that is not blocked, or a submitter about to notify a blocked one |
| `BlockingExecutor.SubmitProvidesIff` | galay-kernel/kernel/blocking_executor.cc:101-109 | A submit leaves every queued task an idle worker of its own, or the maximum reached, exactly when some idle worker is not yet spoken for, none is idle, or the maximum was reached |
| `BlockingExecutor.QueuedBelowMaximum` | galay-kernel/kernel/blocking_executor.cc:101-109 | A run in which a task stays queued behind a running one below the maximum, because a notified worker still counts as idle |
| `BlockingExecutor.NextPlaced` | galay-kernel/kernel/blocking_executor.cc:86-182 | Each accepted task is queued, held by one worker or finished, and was started at most once |
| `BlockingExecutor.NextShutsDown` | galay-kernel/kernel/blocking_executor.cc:56-62 | While stopping nobody waits for tasks; the destructor is blocked only while there are workers |
| `BlockingExecutor.EveryRunIsConsistent` | galay-kernel/kernel/blocking_executor.cc:56-195 | Counters, wake-ups, places of tasks and shutdown as above in every reachable state, for any number of submitters, workers, timeouts and spurious wake-ups; the minimum is `MinimumIsKept` |
| `BlockingExecutor.NextKeepsMinimum` | galay-kernel/kernel/blocking_executor.cc:149-166 | Before shutdown a worker leaves only when the minimum stays |
| `BlockingExecutor.MinimumIsKept` | galay-kernel/kernel/blocking_executor.cc:149-166 | Once reached, the minimum of workers is kept in every run until shutdown |
| `BlockingExecutor.IdleWaits` | galay-kernel/kernel/blocking_executor.cc:147-162 | An idle worker waits, with a timeout exactly when the pool is above its minimum |
| `BlockingExecutor.TimeoutRetiresIff` | galay-kernel/kernel/blocking_executor.cc:149-167 | A worker whose keep-alive runs out leaves exactly when its wait had a timeout, nothing is queued and the pool is above its minimum |
| `BlockingExecutor.NextIsFifo` | galay-kernel/kernel/blocking_executor.cc:86-182 | The queue grows only at its end and a worker takes only its front |
| `BlockingExecutor.DestructorWaitsForEveryTask` | galay-kernel/kernel/blocking_executor.cc:56-62 | When the destructor has returned there is no worker, the queue is empty and every accepted task ran exactly once |
| `BlockingExecutor.StoppingStepsProgress` | galay-kernel/kernel/blocking_executor.cc:170-181 | While stopping no worker is stuck and every step of a worker brings the end closer |
| `BlockingExecutor.StoppingNeverRecedes` | galay-kernel/kernel/blocking_executor.cc:56-195 | No step of anybody moves the end further away, so every fair shutdown ends |
| `BlockingExecutor.ShutdownCompletes` | galay-kernel/kernel/blocking_executor.cc:56-62 | A called destructor can return after at most that many steps |
| `AwaitableMachine.CallProtocol` | galay-kernel/kernel/awaitable.h:1997-2103 | In an unbroken history advance is never called while a wait is outstanding, and an answer directly follows its wait, in its direction, so no wait has two |
| `AwaitableMachine.BrokenStays` | galay-kernel/kernel/awaitable.h:1997-2103 | A history with one call out of turn is broken for good |
| `AwaitableMachine.StateMachineAwaitable.constructor` | galay-kernel/kernel/awaitable.h:1705-1712 | Nothing asked, nothing active |
| `AwaitableMachine.StateMachineAwaitable.Transition` | galay-kernel/kernel/awaitable.h:2006-2098 | One question to the machine: refused, trivial and real waits, results and errors, each with the outcome the source gives it |
| `AwaitableMachine.StateMachineAwaitable.GiveUp` | galay-kernel/kernel/awaitable.h:2100-2102 | A capped loop ends with kParamInvalid and no active task |
| `AwaitableMachine.StateMachineAwaitable.Pump` | galay-kernel/kernel/awaitable.h:1997-2103 | At most 64 transitions; ends waiting without an outcome or completed with one; the cap is hit exactly when the machine spins for all 64; an outcome or active wait is left alone |
| `AwaitableMachine.StateMachineAwaitable.Answer` | galay-kernel/kernel/awaitable.h:1878-1916 | The active wait gets its one callback, read for recv and readv, write for send and writev; an unhandled connect becomes an error |
| `AwaitableMachine.StateMachineAwaitable.PrepareForSubmit` | galay-kernel/kernel/awaitable.h:1866-1926 | At most 64 * 64 advance calls; ends with one active task and no outcome, or with exactly one of result and error; inline IO is consumed in order; from an open state the cap needs 64 inline results or a machine about to spin 64 times |
| `AwaitableMachine.StateMachineAwaitable.Suspend` | galay-kernel/kernel/awaitable.h:1305-1348 | Rejected exactly on a failed claim or registration (kNotReady) or a missing scheduler (kNotRunningOnIOScheduler); otherwise it ends as the inline drive does; a suspended coroutine has one active wait |
| `AwaitableMachine.StateMachineAwaitable.OnActiveEvent` | galay-kernel/kernel/awaitable.h:1928-1979 | The first ready result answers the active wait, in its direction; without one nothing changes; from an open state it ends waiting, decided by the machine, or capped for a stated reason |
| `AwaitableMachine.StateMachineAwaitable.MarkTimeout` | galay-kernel/kernel/awaitable.h:1781-1806 | A result is never replaced; the outstanding wait is answered once with the timeout and the machine asked again; the outcome is the timeout only if the machine waits again, and the cap exactly if it spins |
| `LinearMachine.NearestReceive` | galay-kernel/kernel/awaitable.h:2839-2873 | The nearest recv or readv before a node |
| `LinearMachine.MoreAnswers` | galay-kernel/kernel/awaitable.h:2481-2533 | A later IO answer does not change what the reference interpreter did before |
| `LinearMachine.LocalMatches` | galay-kernel/kernel/awaitable.h:2666-2681 | A local or finish node does what the interpreter does |
| `LinearMachine.ParseMatches` | galay-kernel/kernel/awaitable.h:2683-2716 | A parse node repeats, goes on, or goes back to the nearest receive like the interpreter |
| `LinearMachine.AdvanceMatches` | galay-kernel/kernel/awaitable.h:2481-2533 | advance keeps machine and interpreter together |
| `LinearMachine.AnswerMatches` | galay-kernel/kernel/awaitable.h:2535-2626 | onRead, onWrite and onConnect keep them together, also when the handler or the IO fails |
| `LinearMachine.HistoryMatches` | galay-kernel/kernel/awaitable.h:2481-2779 | Over every unbroken history machine and interpreter make the same handler calls on the same flow |
| `LinearMachine.BuiltAwaitableRefines` | galay-kernel/kernel/awaitable.h:2481-2779 | In every reachable state of a built awaitable: the same handler calls as the interpreter on the same answers, its outcome is the interpreter's, while waiting both wait at the same IO; only the cap (kParamInvalid, after 64 inline results or a spinning machine), a timeout or a refused suspension differ |
| `LinearMachine.LocalDoes` | galay-kernel/kernel/awaitable.h:2666-2681 | What a local or finish handler leaves decides: its result, else exactly its failure, else kParamInvalid for queued work, else the next node |
| `LinearMachine.ParseDoes` | galay-kernel/kernel/awaitable.h:2683-2716 | The same for a parse handler, which otherwise is repeated, passed, or gone back from to the nearest receive; without one it is kParamInvalid |
| `LinearMachine.OtherwiseDoes` | galay-kernel/kernel/awaitable.h:2481-2533 | An IO node waits for its IO; running past the last node is kNotReady |
| `LinearMachine.AnswerDoes` | galay-kernel/kernel/awaitable.h:2535-2626 | What an IO handler leaves decides, else the error of the IO, else the next node |
| `LinearMachine.FirstOutcomeDecides` | galay-kernel/kernel/awaitable.h:2728-2779 | What the coroutine of a built awaitable resumes with is exactly what the first handler to leave anything left, or the error of the node that stopped the flow |
| `LinearMachine.React` | galay-kernel/kernel/awaitable.h:1928-1979 | A readiness event on a built awaitable: the interpreter's outcome, or a wait at the same IO with every ready result used, or the cap for a stated reason |
| `LinearMachine.OnlyGoodAnswers` | galay-kernel/kernel/awaitable.h:2535-2626 | While the interpreter has no outcome every answer it took was good |
| `LinearMachine.WaitingHasNoError` | galay-kernel/kernel/awaitable.h:2535-2626 | A built awaitable that waits has been told of no error |
| `LinearMachine.TimeOut` | galay-kernel/kernel/awaitable.h:1781-1806 | A timeout of a waiting built awaitable ends as the interpreter does when that IO fails with the timeout |
| `LinearMachine.AwaitableBuilder.constructor` | galay-kernel/kernel/awaitable.h:2813-2818 | No nodes |
| `LinearMachine.AwaitableBuilder.AddLocal` | galay-kernel/kernel/awaitable.h:2833-2837 | Appends a local node |
| `LinearMachine.AwaitableBuilder.AddFinish` | galay-kernel/kernel/awaitable.h:2845-2849 | Appends a finish node |
| `LinearMachine.AwaitableBuilder.AddParse` | galay-kernel/kernel/awaitable.h:2839-2843 | Appends a parser that goes back to the nearest receive so far |
| `LinearMachine.AwaitableBuilder.AddIo` | galay-kernel/kernel/awaitable.h:2851-2898 | Appends an IO node; a receive becomes the target of later parsers |
| `LinearMachine.AwaitableBuilder.InferDomain` | galay-kernel/kernel/awaitable.h:2909-2935 | The domain covers every IO node, and is one-sided exactly when only that side waits |
| `LinearMachine.WaitsAreNodes` | galay-kernel/kernel/awaitable.h:2481-2533 | The machine waits only for an IO of one of its nodes |
| `LinearMachine.ActiveWaitIsCovered` | galay-kernel/kernel/awaitable.h:2909-2935 | Every wait a built awaitable can be in lies in the inferred domain |
| `SlotOwnership.IOController.constructor` | galay-kernel/kernel/io_controller.hpp:236-252 | Free slots |
| `SlotOwnership.IOController.Create` | galay-kernel/kernel/awaitable.h:1149-1153 | A sequence starts unregistered |
| `SlotOwnership.IOController.Claim` | galay-kernel/kernel/awaitable.h:1177-1208 | All slots of the domain or none, exactly when all are free or already owned; a read or write claim leaves the other slot alone; a failed claim changes no slot |
| `SlotOwnership.IOController.Release` | galay-kernel/kernel/awaitable.h:1210-1240 | Gives up exactly what the sequence owns, also after a close; the SEQUENCE bit stays exactly while some owner exists |
| `SlotOwnership.IOController.SuspendOrdinary` | galay-kernel/kernel/awaitable.h:194-215 | Refused exactly when a sequence owns the slot, and then nothing changes |
| `SlotOwnership.FillsWhatItUses` | galay-kernel/kernel/io_scheduler.hpp:805-843 | An ordinary await of any event fills exactly the slot that its event uses |
| `SlotOwnership.IOController.ResumeOrdinary` | galay-kernel/kernel/io_scheduler.hpp:846-884 | Clears its own slot and bit only; no owner is touched |
| `SlotOwnership.IOController.Close` | galay-kernel/kernel/epoll_reactor.cc:308-327 | All slots and bits are cleared |
| `SlotOwnership.IOController.MaskIsWhatOwnersWaitFor` | galay-kernel/kernel/awaitable.h:1269-1294 | With covered events the collected mask holds exactly the slots whose own owner waits on them |
| `SlotOwnership.IOController.ServedIffCovered` | galay-kernel/kernel/awaitable.h:239-262 | An owner owns every slot it waits on exactly when its event lies in its domain |
| `SlotOwnership.IOController.Progress` | galay-kernel/kernel/epoll_reactor.cc:549-554 | The front task changes to any event; no ownership changes, and coverage is kept by a covered event |
| `SlotOwnership.IOController.Dispatch` | galay-kernel/kernel/epoll_reactor.cc:543-584 | Every readiness the mask asks for reaches the owner that waits on it, each owner once and nobody else |
| `EpollReactor.AskedExactlyForWaits` | galay-kernel/kernel/epoll_reactor.cc:128-141 | With a synced mask readiness of a slot is asked for exactly when an ordinary await or the owner waits on it |
| `EpollReactor.TypesAskForTheirSlots` | galay-kernel/kernel/epoll_reactor.cc:34-44 | EPOLLIN and EPOLLOUT are asked for exactly when some event of the controller uses the read or write slot; EPOLLET always |
| `EpollReactor.Reactor.constructor` | galay-kernel/kernel/epoll_reactor.cc:57-83 | Nothing pending, nothing registered |
| `EpollReactor.Reactor.Open` | galay-kernel/kernel/io_controller.hpp:236-252 | A new descriptor starts unregistered |
| `EpollReactor.Reactor.Ctl` | galay-kernel/kernel/epoll_reactor.cc:194-227 | The kernel succeeds, reports a missing entry truthfully, or fails unchanged |
| `EpollReactor.Reactor.FindPending` | galay-kernel/kernel/epoll_reactor.cc:106-113 | The entry of the controller, or past the end exactly when there is none |
| `EpollReactor.Reactor.ApplyFirst` | galay-kernel/kernel/epoll_reactor.cc:176-241 | One change is carried out and removed, or, exactly when the kernel refuses, stays with nothing changed; the fallback after a missing entry on MOD is dead |
| `EpollReactor.Reactor.Flush` | galay-kernel/kernel/epoll_reactor.cc:174-243 | Fails exactly when the kernel refuses a change; success leaves every live controller at its last requested mask, EPOLLET alone meaning no entry; a failure keeps the rest in order |
| `EpollReactor.Reactor.Apply` | galay-kernel/kernel/epoll_reactor.cc:143-172 | At most one entry per controller, holding the last request; a request in force cancels the entry, a repeated one changes nothing, any other that fills the queue flushes it; a closed controller is refused |
| `EpollReactor.Reactor.Close` | galay-kernel/kernel/epoll_reactor.cc:308-327 | The pending change and the registration go; other controllers keep theirs |
| `RecvStream.StreamAppend` | galay-kernel/kernel/io_controller.hpp:471-473 | Enqueueing extends the stream at its end |
| `RecvStream.FrontCut` | galay-kernel/kernel/io_controller.hpp:505-516 | Taking part of the front chunk cuts the stream |
| `RecvStream.RecvQueue.constructor` | galay-kernel/kernel/io_controller.hpp:471-473 | Nothing arrived |
| `RecvStream.RecvQueue.Enqueue` | galay-kernel/kernel/io_controller.hpp:471-473 | The items of the chunk arrive behind the others |
| `RecvStream.RecvQueue.TakeFront` | galay-kernel/kernel/io_controller.hpp:503-516 | Copies what fits, in order, behind the bytes already there; a used-up chunk is dropped |
| `RecvStream.RecvQueue.Fill` | galay-kernel/kernel/io_controller.hpp:488-521 | Stops when full, at a marker, or at the end; no byte is lost, repeated or reordered |
| `RecvStream.RecvQueue.TryConsume` | galay-kernel/kernel/io_controller.hpp:482-525 | Delivered items followed by remaining ones are all that arrived; never more than the capacity; a marker comes once and after all earlier bytes; a result without any item is given exactly for zero capacity before a buffer or when only empty chunks were queued |
| `RecvStream.RecvQueue.Clear` | galay-kernel/kernel/io_controller.hpp:530-535 | What was not delivered is dropped |
| `MpscChannel.Channel.constructor` | galay-kernel/concurrency/mpsc_channel.h:132-135 | Empty |
| `MpscChannel.Channel.Send` | galay-kernel/concurrency/mpsc_channel.h:146-156 | Appended, or refused with nothing changed, exactly as the underlying queue can grow or not |
| `MpscChannel.Channel.SendBatch` | galay-kernel/concurrency/mpsc_channel.h:173-185 | The whole batch in order, or nothing, refused exactly when it is not empty and the underlying queue cannot grow |
| `MpscChannel.Channel.SendBatchMoved` | galay-kernel/concurrency/mpsc_channel.h:192-204 | Sends the batch length modulo 2^32, so everything exactly below 2^32 elements |
| `MpscChannel.Channel.TryPopPrefetched` | galay-kernel/concurrency/mpsc_channel.h:348-361 | Returns the head of the plain queue while something is cached |
| `MpscChannel.Channel.TryPrefetch` | galay-kernel/concurrency/mpsc_channel.h:363-377 | An empty cache gets as many elements as the limit and the queue allow; what the channel stands for does not change |
| `MpscChannel.Channel.TryRecv` | galay-kernel/concurrency/mpsc_channel.h:235-250 | Returns the head of the plain queue; None exactly when nothing is cached and the counter is 0 |
| `MpscChannel.Channel.TryRecvBatch` | galay-kernel/concurrency/mpsc_channel.h:264-295 | Returns the first elements of the plain queue, as many as asked for or there; None exactly for counter 0 or a request of 0 |
| `MpscCounter.EveryRunIsConsistent` | galay-kernel/concurrency/mpsc_channel.h:146-204 | At every atomic step of any number of producers and the consumer the counter is queued plus cached plus in-flight elements modulo 2^32, and received, cached and queued elements are the sent ones in order |
| `MpscCounter.SubtractionsAreCovered` | galay-kernel/concurrency/mpsc_channel.h:146-152 | No subtraction takes away more than is counted |
| `MpscCounter.ZeroMeansEmpty` | galay-kernel/concurrency/mpsc_channel.h:235-240 | A zero counter means empty exactly while fewer than 2^32 elements are counted |

## Left out

- Weak memory orders, and the wrap-around of the 64-bit ring indices: the ring is modelled under sequential consistency with unbounded indices.
- Object lifetime: tasks, controllers and awaitables stay alive while they are referenced, and a released receive chunk counts as empty.
- Overflow of 64-bit nanosecond arithmetic in the wheel.
- Handlers that push into the wheel they are fired from.
- Lost wake-ups of schedulers and of channel receivers, which depend on waker and registration code that is not part of this model.
- Starvation and unconditional termination of ready passes: a script of further tasks is finite.
- Interleavings of ring accesses inside worker, pass and steal operations, which are taken whole; the ring protocol itself is modelled access by access.
- Producer order across threads in the underlying lock-free queue: it is taken as a linearizable FIFO whose bulk operations move as much as they can.
- Failure to create a thread, tasks that throw, and empty functions submitted to the executor.
- Null handlers in node lists, which the builder cannot produce, aborts on oversized vector counts, and further use of a builder after its nodes were moved out.
- The repeat of an interrupted epoll_ctl call is part of the kernel's answer.
- The io_uring and kqueue variants of registration, generations and armed masks.
- The values of buffers, hosts and system error numbers in awaitables.
- Recycling of provided receive buffers.
- The timer manager with a lock, the async mutex, the async waiter, random and plain round-robin balancing, runtime orchestration, sockets and files.
