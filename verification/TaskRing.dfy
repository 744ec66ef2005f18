/**
 The ring's operations run without interference, as whole operations on the sequence of tasks the
 ring holds; and the interleaving that makes the ring drop a task.
 */
module TaskRing {
  import opened Wrappers
  import opened RingProtocol

  /** A ring between operations: every index from head to tail has a full slot. */
  ghost predicate Valid(r: Ring) {
    && r.head <= r.tail <= r.head + CAPACITY
    && (forall i :: r.head <= i < r.tail ==> r.slots[SlotOf(i)].Some?)
  }

  /** The tasks in the ring, oldest first. */
  ghost function Contents(r: Ring): (tasks: seq<Task>)
    requires Valid(r)
    ensures |tasks| == r.tail - r.head
    ensures forall i :: 0 <= i < |tasks| ==> Some(tasks[i]) == r.slots[SlotOf(r.head + i)]
  {
    seq(r.tail - r.head, i requires 0 <= i < r.tail - r.head => r.slots[SlotOf(r.head + i)].value)
  }

  function PushBack(r: Ring, task: Task): (r': Option<Ring>)
  {
    if r.tail - r.head >= CAPACITY then None
    else Some(Ring(r.slots[SlotOf(r.tail) := Some(task)], r.head, r.tail + 1))
  }

  function PopBack(r: Ring): (result: (Ring, Option<Task>)) {
    if r.tail == 0 then (r, None) else
    var last := r.tail - 1;
    if r.head > last then (r.(tail := r.head), None)
    else if r.head == last then
      (Ring(r.slots[SlotOf(last) := None], last + 1, last + 1), r.slots[SlotOf(last)])
    else
      (Ring(r.slots[SlotOf(last) := None], r.head, last), r.slots[SlotOf(last)])
  }

  function StealFront(r: Ring): (result: (Ring, Option<Task>)) {
    if r.head >= r.tail then (r, None) else
    var candidate := r.slots[SlotOf(r.head)];
    if candidate.None? || candidate.value.ownerOnly then (r, None)
    else (Ring(r.slots[SlotOf(r.head) := None], r.head + 1, r.tail), candidate)
  }

  function Size(r: Ring): nat {
    if r.tail < r.head then 0 else r.tail - r.head
  }

  function RemainingCapacity(r: Ring): nat {
    if Size(r) >= CAPACITY then 0 else CAPACITY - Size(r)
  }

  /** A push appends, and is refused exactly when the ring is full. */
  lemma PushBackAppends(r: Ring, task: Task)
    requires Valid(r)
    ensures PushBack(r, task).None? <==> |Contents(r)| == CAPACITY
    ensures PushBack(r, task).Some? ==>
              && Valid(PushBack(r, task).value)
              && Contents(PushBack(r, task).value) == Contents(r) + [task]
  {
    if r.tail - r.head < CAPACITY {
      forall i | r.head <= i < r.tail ensures SlotOf(i) != SlotOf(r.tail) { DistinctSlots(i, r.tail); }
    }
  }

  lemma PoppedContents(r: Ring)
    requires Valid(r) && r.head < r.tail && Valid(PopBack(r).0)
    requires forall i :: r.head <= i < r.tail - 1 ==> SlotOf(i) != SlotOf(r.tail - 1)
    ensures Contents(PopBack(r).0) == Contents(r)[..r.tail - 1 - r.head]
  {
    hide SlotOf;
    var all, rest := Contents(r), Contents(PopBack(r).0);
    assert forall i :: 0 <= i < |rest| ==> rest[i] == all[i];
  }

  /** A pop removes the newest task, and fails exactly when the ring is empty. */
  lemma PopBackRemovesNewest(r: Ring)
    requires Valid(r)
    ensures Valid(PopBack(r).0)
    ensures Contents(r) == [] ==> Contents(PopBack(r).0) == [] && PopBack(r).1 == None
    ensures Contents(r) != [] ==>
              && PopBack(r).1.Some?
              && Contents(r) == Contents(PopBack(r).0) + [PopBack(r).1.value]
  {
    if r.head < r.tail {
      forall i | r.head <= i < r.tail - 1 ensures SlotOf(i) != SlotOf(r.tail - 1) {
        DistinctSlots(i, r.tail - 1);
      }
      PoppedContents(r);
    }
  }

  lemma StolenContents(r: Ring)
    requires Valid(r) && StealFront(r).1.Some? && Valid(StealFront(r).0)
    requires forall i :: r.head < i < r.tail ==> SlotOf(i) != SlotOf(r.head)
    ensures Contents(StealFront(r).0) == Contents(r)[1..]
  {
    hide SlotOf;
    var all, rest := Contents(r), Contents(StealFront(r).0);
    assert forall i :: 0 <= i < |rest| ==> rest[i] == all[i + 1];
  }

  /** A steal removes the oldest task, and fails exactly when there is none or it is owner-only. */
  lemma StealFrontRemovesOldest(r: Ring)
    requires Valid(r)
    ensures Valid(StealFront(r).0)
    ensures StealFront(r).1.None? <==> Contents(r) == [] || Contents(r)[0].ownerOnly
    ensures StealFront(r).1.None? ==> StealFront(r).0 == r
    ensures StealFront(r).1.Some? ==>
              Contents(r) == [StealFront(r).1.value] + Contents(StealFront(r).0)
  {
    if StealFront(r).1.Some? {
      forall i | r.head < i < r.tail ensures SlotOf(i) != SlotOf(r.head) { DistinctSlots(r.head, i); }
      StolenContents(r);
    }
  }

  // ---- the whole operations are the protocol without interference ------------------------------

  lemma RunOne(s: State, steps: seq<Step>, step: Step)
    ensures Run(s, steps + [step]) == Next(Run(s, steps), step)
  {
    assert (steps + [step])[..|steps|] == steps;
  }

  lemma RunNone(s: State)
    ensures Run(s, []) == s
  {
  }

  lemma {:induction false} RunAppend(s: State, a: seq<Step>, b: seq<Step>)
    ensures Run(s, a + b) == Run(Run(s, a), b)
    decreases |b|
  {
    if b == [] {
      assert a + b == a;
    } else {
      var last := |b| - 1;
      assert a + b == (a + b[..last]) + [b[last]];
      RunOne(s, a + b[..last], b[last]);
      RunAppend(s, a, b[..last]);
    }
  }

  function PushSteps(task: Task): seq<Step> {
    [BeginPush(task)] + [Owner] + [Owner] + [Owner]
  }

  function PopSteps(): seq<Step> {
    [BeginPop] + [Owner] + [Owner] + [Owner] + [Owner] + [Owner]
  }

  /** The accesses of a steal up to its head swap. */
  function ClaimSteps(id: nat): seq<Step> {
    [Thief(id)] + [Thief(id)] + [Thief(id)] + [Thief(id)] + [Thief(id)]
  }

  function StealSteps(id: nat): seq<Step> {
    ClaimSteps(id) + [Thief(id)]
  }

  ghost predicate Pushed(s: State, task: Task, s': State) {
    && s'.owner == OwnerIdle && s'.thieves == s.thieves
    && match PushBack(s.ring, task)
       case None => s'.ring == s.ring && s'.past == s.past
       case Some(ring) =>
         s'.ring == ring && s'.past == AfterStore(s.past, s.ring.slots[SlotOf(s.ring.tail)], task)
  }

  lemma PushIsUninterrupted(s: State, task: Task)
    requires s.owner == OwnerIdle
    ensures Pushed(s, task, Run(s, PushSteps(task)))
  {
    RunOne(s, [], BeginPush(task));
    RunOne(s, [BeginPush(task)], Owner);
    RunOne(s, [BeginPush(task)] + [Owner], Owner);
    RunOne(s, [BeginPush(task)] + [Owner] + [Owner], Owner);
    assert [] + [BeginPush(task)] == [BeginPush(task)];
  }

  lemma PopUnrolled(s: State)
    ensures Run(s, PopSteps()) ==
            OwnerStep(OwnerStep(OwnerStep(OwnerStep(OwnerStep(Next(s, BeginPop))))))
  {
    assert [] + [BeginPop] == [BeginPop];
    RunOne(s, [], BeginPop);
    RunOne(s, [BeginPop], Owner);
    RunOne(s, [BeginPop] + [Owner], Owner);
    RunOne(s, [BeginPop] + [Owner] + [Owner], Owner);
    RunOne(s, [BeginPop] + [Owner] + [Owner] + [Owner], Owner);
    RunOne(s, [BeginPop] + [Owner] + [Owner] + [Owner] + [Owner], Owner);
  }

  /** What is left of a pop once the owner has published the decremented tail. */
  lemma PopFinishes(s: State, last: nat)
    requires s.owner == PopHead(last) && s.ring.tail == last && s.ring.head <= last + 1
    ensures var s' := OwnerStep(OwnerStep(OwnerStep(OwnerStep(s))));
            var done := PopBack(s.ring.(tail := last + 1));
            && s'.owner == OwnerIdle && s'.thieves == s.thieves && s'.ring == done.0
            && s'.past == (if s.ring.head <= last
                           then AfterExchange(s.past, s.ring.slots[SlotOf(last)], false) else s.past)
  {
    var s1 := OwnerStep(s);
    var s2 := OwnerStep(s1);
    if s.ring.head == last + 1 {
      assert s1 == s.(owner := PopRestore(last + 1));
      assert s2 == s.(owner := OwnerIdle, ring := s.ring.(tail := last + 1));
    } else if s.ring.head == last {
      assert s1 == s.(owner := PopCas(last));
      assert s2 == s.(owner := PopAdvance(last), ring := s.ring.(head := last + 1));
      var s3 := OwnerStep(s2);
      assert s3 == s.(owner := PopTakeLast(last), ring := Ring(s.ring.slots, last + 1, last + 1));
    } else {
      assert s1 == s.(owner := PopTake(last));
      assert s2 == Exchange(s1, last, false).(owner := OwnerIdle);
    }
  }

  ghost predicate Popped(s: State, s': State) {
    && s'.owner == OwnerIdle && s'.thieves == s.thieves && s'.ring == PopBack(s.ring).0
    && s'.past == (if s.ring.head < s.ring.tail
                   then AfterExchange(s.past, s.ring.slots[SlotOf(s.ring.tail - 1)], false)
                   else s.past)
  }

  lemma PopReserves(s: State)
    requires s.owner == OwnerIdle && s.ring.head <= s.ring.tail
    ensures Popped(s, OwnerStep(OwnerStep(OwnerStep(OwnerStep(OwnerStep(Next(s, BeginPop)))))))
  {
    if s.ring.tail != 0 {
      var reserved := OwnerStep(Next(s, BeginPop));
      assert reserved == State(s.ring.(tail := s.ring.tail - 1), PopHead(s.ring.tail - 1), s.thieves, s.past);
      PopFinishes(reserved, s.ring.tail - 1);
      assert reserved.ring.(tail := s.ring.tail) == s.ring;
    }
  }

  lemma PopIsUninterrupted(s: State)
    requires s.owner == OwnerIdle && s.ring.head <= s.ring.tail
    ensures Popped(s, Run(s, PopSteps()))
  {
    PopUnrolled(s);
    PopReserves(s);
  }

  lemma ClaimUnrolled(s: State, id: nat)
    ensures Run(s, ClaimSteps(id)) ==
            ThiefStep(ThiefStep(ThiefStep(ThiefStep(ThiefStep(s, id), id), id), id), id)
  {
    hide ThiefStep;
    assert [] + [Thief(id)] == [Thief(id)];
    RunOne(s, [], Thief(id));
    RunOne(s, [Thief(id)], Thief(id));
    RunOne(s, [Thief(id)] + [Thief(id)], Thief(id));
    RunOne(s, [Thief(id)] + [Thief(id)] + [Thief(id)], Thief(id));
    RunOne(s, [Thief(id)] + [Thief(id)] + [Thief(id)] + [Thief(id)], Thief(id));
  }

  /** A steal that nobody disturbs claims the oldest task with its fifth access. */
  lemma ClaimIsUninterrupted(s: State, id: nat)
    requires id !in s.thieves && StealFront(s.ring).1.Some?
    ensures Run(s, ClaimSteps(id)) ==
            s.(ring := s.ring.(head := s.ring.head + 1),
               thieves := s.thieves[id := StealTake(s.ring.head, s.ring.slots[SlotOf(s.ring.head)].value)])
  {
    ClaimUnrolled(s, id);
    var task := s.ring.slots[SlotOf(s.ring.head)].value;
    var s3 := ThiefStep(ThiefStep(ThiefStep(s, id), id), id);
    assert s3 == s.(thieves := s.thieves[id := StealFlag(s.ring.head, task)]);
  }

  /** A steal that wins takes six accesses; one that gives up takes fewer. */
  lemma StealIsUninterrupted(s: State, id: nat)
    requires id !in s.thieves && StealFront(s.ring).1.Some?
    ensures var s' := Run(s, StealSteps(id));
            && s'.owner == s.owner && s'.thieves == s.thieves
            && s'.ring == StealFront(s.ring).0
            && s'.past == AfterExchange(s.past, StealFront(s.ring).1, true)
  {
    hide Run;
    ClaimIsUninterrupted(s, id);
    RunOne(s, ClaimSteps(id), Thief(id));
    var task := s.ring.slots[SlotOf(s.ring.head)].value;
    assert s.thieves[id := StealTake(s.ring.head, task)] - {id} == s.thieves;
  }

  // ---- the interleaving that loses a task ------------------------------------------------------

  function Pushes(n: nat): seq<Step> {
    if n == 0 then [] else Pushes(n - 1) + PushSteps(Task(n, false))
  }

  ghost predicate Waiting(s: State, n: nat, content: Option<Task>, thieves: map<nat, ThiefPc>) {
    && s.owner == OwnerIdle && s.ring.head == 1 && s.ring.tail == n + 1
    && s.ring.slots[0] == content && s.thieves == thieves && s.past.blanks == 0
  }

  lemma ClaimOutlivesPush(s: State, n: nat, content: Option<Task>, thieves: map<nat, ThiefPc>, task: Task, s': State)
    requires Waiting(s, n, content, thieves) && n < CAPACITY - 1 && Pushed(s, task, s')
    ensures Waiting(s', n + 1, content, thieves)
  {
  }

  /** A claimed slot stays as it is while the owner pushes up to 255 tasks behind it. */
  lemma {:induction false} ClaimOutlivesPushes(s: State, n: nat)
    requires Waiting(s, 0, s.ring.slots[0], s.thieves) && n < CAPACITY
    ensures Waiting(Run(s, Pushes(n)), n, s.ring.slots[0], s.thieves)
  {
    hide Run, PushSteps, Pushed;
    if n == 0 {
      RunNone(s);
    } else {
      var before := Run(s, Pushes(n - 1));
      ClaimOutlivesPushes(s, n - 1);
      var task := Task(n, false);
      PushIsUninterrupted(before, task);
      ClaimOutlivesPush(before, n - 1, s.ring.slots[0], s.thieves, task, Run(before, PushSteps(task)));
      RunAppend(s, Pushes(n - 1), PushSteps(task));
    }
  }

  lemma FirstTaskClaimed()
    ensures Waiting(Run(Init(), PushSteps(Task(0, false)) + ClaimSteps(0)), 0, Some(Task(0, false)),
                    map[0 := StealTake(0, Task(0, false))])
  {
    hide Run, ClaimSteps, PushSteps;
    var s0 := Run(Init(), PushSteps(Task(0, false)));
    PushIsUninterrupted(Init(), Task(0, false));
    RunAppend(Init(), PushSteps(Task(0, false)), ClaimSteps(0));
    ClaimIsUninterrupted(s0, 0);
  }

  lemma ClaimLost(s: State, task: Task, pushed: State, popped: State)
    requires Waiting(s, CAPACITY - 1, Some(task), map[0 := StealTake(0, task)])
    requires Pushed(s, Task(CAPACITY, false), pushed)
    ensures pushed.owner == OwnerIdle && task in pushed.past.lost
    ensures var taken := ThiefStep(pushed, 0);
            && taken.owner == OwnerIdle && taken.ring.head <= taken.ring.tail
            && (Popped(taken, popped) ==> task in popped.past.lost && popped.past.blanks == 1)
  {
  }

  /**
   Without the guard the ring does lose tasks: a thief that stops between its head swap and its slot
   exchange while the owner pushes a full ring gets the newest task instead of the oldest, the oldest
   is gone, and the owner's next pop reports success with nothing in it.
   */
  lemma UnguardedRunLosesTask() returns (steps: seq<Step>)
    ensures Task(0, false) in Run(Init(), steps).past.lost
    ensures Run(Init(), steps).past.blanks == 1
    ensures !GuardedRun(steps)
  {
    var claim := PushSteps(Task(0, false)) + ClaimSteps(0);
    FirstTaskClaimed();
    var s1 := Run(Init(), claim);
    var s2 := Run(s1, Pushes(CAPACITY - 1));
    ClaimOutlivesPushes(s1, CAPACITY - 1);
    RunAppend(Init(), claim, Pushes(CAPACITY - 1));
    steps := LoseLast(claim + Pushes(CAPACITY - 1), s2);
    LosslessIffGuarded(steps);
  }

  lemma LoseLast(full: seq<Step>, s: State) returns (steps: seq<Step>)
    requires s == Run(Init(), full)
    requires Waiting(s, CAPACITY - 1, Some(Task(0, false)), map[0 := StealTake(0, Task(0, false))])
    ensures Task(0, false) in Run(Init(), steps).past.lost && Run(Init(), steps).past.blanks == 1
  {
    hide Run;
    var over := full + PushSteps(Task(CAPACITY, false));
    RunAppend(Init(), full, PushSteps(Task(CAPACITY, false)));
    PushIsUninterrupted(s, Task(CAPACITY, false));
    var pushed := Run(s, PushSteps(Task(CAPACITY, false)));
    RunOne(Init(), over, Thief(0));
    var taken := ThiefStep(pushed, 0);
    steps := over + [Thief(0)] + PopSteps();
    RunAppend(Init(), over + [Thief(0)], PopSteps());
    ClaimLost(s, Task(0, false), pushed, Run(taken, PopSteps()));
    PopIsUninterrupted(taken);
  }
}
