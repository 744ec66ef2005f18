/**
 A scheduler worker: the LIFO slot, the ring that siblings steal from, and the queue that other
 threads inject into.  Ring operations are taken as whole operations.
 */
module Worker {
  import opened Wrappers
  import opened RingProtocol
  import opened TaskRing

  function Inc32(n: nat): nat { (n + 1) % 0x1_0000_0000 }

  function Min(a: nat, b: nat): (m: nat)
    ensures m <= a && m <= b && (m == a || m == b)
  {
    if a < b then a else b
  }

  function Max(a: nat, b: nat): (m: nat)
    ensures a <= m && b <= m && (m == a || m == b)
  {
    if a < b then b else a
  }

  function Reversed(s: seq<Task>): (r: seq<Task>)
    ensures |r| == |s|
  {
    if s == [] then [] else Reversed(s[1..]) + [s[0]]
  }

  lemma {:induction false} ReversedKeeps(s: seq<Task>)
    ensures multiset(Reversed(s)) == multiset(s)
  {
    if s != [] {
      ReversedKeeps(s[1..]);
      assert s == [s[0]] + s[1..];
    }
  }

  /** What `n` pops from the back of the ring return. */
  function Pops(contents: seq<Task>, n: nat): seq<Task>
    requires n <= |contents|
  {
    if n == 0 then [] else [contents[|contents| - 1]] + Pops(contents[..|contents| - 1], n - 1)
  }

  /** A batch that was pushed in reverse is popped oldest first. */
  lemma {:induction false} BatchPopsOldestFirst(contents: seq<Task>, batch: seq<Task>)
    ensures Pops(contents + Reversed(batch), |batch|) == batch
    decreases |batch|
  {
    if batch != [] {
      var all := contents + Reversed(batch);
      assert all[..|all| - 1] == contents + Reversed(batch[1..]);
      BatchPopsOldestFirst(contents, batch[1..]);
      assert all[|all| - 1] == batch[0];
    }
  }

  ghost function Given(task: Option<Task>): multiset<Task> {
    if task.Some? then multiset{task.value} else multiset{}
  }

  /** The tasks in a slot, a ring and an inject queue. */
  ghost function Tasks(slot: Option<Task>, local: seq<Task>, inject: seq<Task>): multiset<Task> {
    Given(slot) + multiset(local) + multiset(inject)
  }

  lemma OneMore(slot: Option<Task>, local: seq<Task>, inject: seq<Task>, t: Task)
    ensures Tasks(slot, local + [t], inject) == Tasks(slot, local, inject) + multiset{t}
    ensures Tasks(slot, local, inject + [t]) == Tasks(slot, local, inject) + multiset{t}
    ensures Tasks(Some(t), local, inject) == Tasks(None, local, inject) + multiset{t}
  {
    assert multiset(local + [t]) == multiset(local) + multiset{t};
    assert multiset(inject + [t]) == multiset(inject) + multiset{t};
    Reorder(Given(slot), multiset(local), multiset(inject), multiset{t});
    Reorder(multiset{}, multiset(local), multiset(inject), multiset{t});
  }

  lemma Reorder(a: multiset<Task>, b: multiset<Task>, c: multiset<Task>, d: multiset<Task>)
    ensures a + (b + d) + c == a + b + c + d && a + b + (c + d) == a + b + c + d
    ensures d + b + c == multiset{} + b + c + d
  {
  }

  lemma DrainMoves(slot: Option<Task>, local: seq<Task>, inject: seq<Task>, n: nat)
    requires n <= |inject|
    ensures Tasks(slot, local + Reversed(inject[..n]), inject[n..]) == Tasks(slot, local, inject)
  {
    ReversedKeeps(inject[..n]);
    assert inject == inject[..n] + inject[n..];
  }

  class WorkerState {
    var lifoSlot: Option<Task>
    var ring: Ring
    var inject: seq<Task>
    var outstanding: nat
    var batch: nat
    var consecutiveLifo: nat
    var lifoLimit: nat
    var pollsSinceInject: nat
    var injectInterval: nat
    var lifoEnabled: bool
    var stealingEnabled: bool
    const selfIndex: nat
    var stealAttempts: nat
    var stealSuccesses: nat
    ghost var moved: nat    // tasks that drains have moved from the inject queue so far

    ghost predicate Valid()
      reads this
    {
      && TaskRing.Valid(ring)
      && outstanding == |inject|
      && 1 <= batch
      && (lifoSlot.Some? ==> lifoEnabled)
    }

    /** The tasks in the ring, oldest first. */
    ghost function Local(): seq<Task>
      requires Valid()
      reads this
    {
      Contents(ring)
    }

    /** Every task the worker holds. */
    ghost function Held(): multiset<Task>
      requires Valid()
      reads this
    {
      Tasks(lifoSlot, Local(), inject)
    }

    constructor (injectBatch: nat, lifoLimit: nat, injectInterval: nat, selfIndex: nat)
      ensures this.selfIndex == selfIndex && Valid() && Held() == multiset{} && lifoEnabled && stealingEnabled
      ensures batch == if injectBatch == 0 then 1 else injectBatch
      ensures this.lifoLimit == lifoLimit && this.injectInterval == injectInterval
      ensures consecutiveLifo == 0 && pollsSinceInject == 0
    {
      lifoSlot, inject, outstanding := None, [], 0;
      ring := Ring(seq(CAPACITY, _ => None), 0, 0);
      batch := Max(1, injectBatch);
      this.lifoLimit, this.injectInterval := lifoLimit, injectInterval;
      consecutiveLifo, pollsSinceInject, lifoEnabled, stealingEnabled := 0, 0, true, true;
      this.selfIndex, stealAttempts, stealSuccesses, moved := selfIndex, 0, 0, 0;
    }

    method Enqueue(task: Task)
      requires Valid()
      modifies this`inject, this`outstanding
      ensures Valid() && inject == old(inject) + [task]
    {
      outstanding := outstanding + 1;
      inject := inject + [task];
    }

    /** The task went behind the ring's newest, or to the end of the inject queue because the ring was full. */
    ghost predicate Deferred(task: Task, local: seq<Task>, queued: seq<Task>)
      requires Valid()
      reads this
    {
      if |local| < CAPACITY then Local() == local + [task] && inject == queued
      else Local() == local && inject == queued + [task]
    }

    /** Into the ring, or into the inject queue when the ring is full: the push never fails. */
    method EnqueueDeferred(task: Task)
      requires Valid()
      modifies this`ring, this`inject, this`outstanding
      ensures Valid()
      ensures Deferred(task, old(Local()), old(inject))
      ensures Local() != []
      ensures forall slot: Option<Task> ::
        Tasks(slot, Local(), inject) == Tasks(slot, old(Local()), old(inject)) + multiset{task}
    {
      hide Tasks;
      forall slot: Option<Task> ensures Tasks(slot, Local() + [task], inject) == Tasks(slot, Local(), inject) + multiset{task}
        && Tasks(slot, Local(), inject + [task]) == Tasks(slot, Local(), inject) + multiset{task}
      {
        OneMore(slot, Local(), inject, task);
      }
      PushBackAppends(ring, task);
      if RemainingCapacity(ring) == 0 {
        Enqueue(task);
      } else {
        var pushed := PushBack(ring, task);
        ring := pushed.value;
      }
    }

    /** Into the LIFO slot, whose task moves to the ring; an invalid task is ignored. */
    method ScheduleLocal(task: Option<Task>)
      requires Valid()
      modifies this`lifoSlot, this`ring, this`inject, this`outstanding
      ensures Valid()
      ensures Held() == old(Held()) + Given(task)
      ensures task.Some? ==> lifoSlot == (if lifoEnabled then task else None)
      ensures task.Some? && (lifoEnabled ==> old(lifoSlot).Some?) ==>
        Deferred(if lifoEnabled then old(lifoSlot).value else task.value, old(Local()), old(inject))
      ensures task.None? ==> unchanged(this)
    {
      hide Contents, TaskRing.Valid, Tasks;
      if task.None? {
        return;
      }
      if lifoEnabled {
        if lifoSlot.Some? {
          OneMore(None, Local(), inject, lifoSlot.value);
          EnqueueDeferred(lifoSlot.value);
        }
        lifoSlot := task;
        OneMore(None, Local(), inject, task.value);
      } else {
        EnqueueDeferred(task.value);
      }
    }

    /** At the end of the inject queue. */
    method ScheduleLocalDeferred(task: Option<Task>)
      requires Valid()
      modifies this`inject, this`outstanding
      ensures Valid()
      ensures inject == (if task.Some? then old(inject) + [task.value] else old(inject))
      ensures Held() == old(Held()) + Given(task)
    {
      hide Contents, TaskRing.Valid, Tasks;
      if task.Some? {
        OneMore(lifoSlot, Local(), inject, task.value);
        Enqueue(task.value);
      }
    }

    /** From another thread; the answer says whether the scheduler must be woken. */
    method ScheduleInjected(task: Option<Task>) returns (wasEmpty: bool)
      requires Valid()
      modifies this`inject, this`outstanding
      ensures Valid()
      ensures inject == (if task.Some? then old(inject) + [task.value] else old(inject))
      ensures wasEmpty <==> task.Some? && old(inject) == []
      ensures Held() == old(Held()) + Given(task)
    {
      hide Contents, TaskRing.Valid, Tasks;
      wasEmpty := task.Some? && outstanding == 0;
      if task.Some? {
        OneMore(lifoSlot, Local(), inject, task.value);
        Enqueue(task.value);
      }
    }

    /** The loop of a drain: every push succeeds because the batch was cut to fit. */
    method PushReversed(taken: seq<Task>)
      requires TaskRing.Valid(ring) && |Contents(ring)| + |taken| <= CAPACITY
      modifies this`ring
      ensures TaskRing.Valid(ring) && Contents(ring) == old(Contents(ring)) + Reversed(taken)
    {
      var i := |taken|;
      assert taken[i..] == [];
      while i > 0
        invariant i <= |taken| && TaskRing.Valid(ring)
        invariant Contents(ring) == old(Contents(ring)) + Reversed(taken[i..])
      {
        i := i - 1;
        PushBackAppends(ring, taken[i]);
        var pushed := PushBack(ring, taken[i]);
        ring := pushed.value;
        assert taken[i..][1..] == taken[i + 1..];
      }
      assert taken[0..] == taken;
    }

    /** Moves the front of the inject queue into the ring in reverse, as much as fits. */
    method DrainInjected() returns (count: nat)
      requires Valid()
      modifies this`ring, this`inject, this`outstanding, this`pollsSinceInject, this`moved
      ensures Valid() && Held() == old(Held()) && moved == old(moved) + count
      ensures count == Min(Min(CAPACITY - |old(Local())|, batch), |old(inject)|)
      ensures Local() == old(Local()) + Reversed(old(inject)[..count]) && inject == old(inject)[count..]
      ensures pollsSinceInject == if |old(Local())| < CAPACITY then 0 else old(pollsSinceInject)
    {
      hide Contents, TaskRing.Valid, Tasks;
      assert Reversed(inject[..0]) == [];
      var remaining := RemainingCapacity(ring);
      if remaining == 0 {
        return 0;
      }
      count := Min(Min(remaining, batch), |inject|);
      DrainMoves(lifoSlot, Local(), inject, count);
      var taken := inject[..count];
      inject := inject[count..];
      PushReversed(taken);
      if count > 0 {
        outstanding := outstanding - count;
      }
      pollsSinceInject, moved := 0, moved + count;
    }

    predicate HasPendingInjected()
      reads this`outstanding
    {
      outstanding > 0
    }

    predicate HasLocalWork()
      reads this`lifoSlot, this`ring
    {
      lifoSlot.Some? || Size(ring) > 0
    }

    /** After too many LIFO polls in a row the slot's task is moved behind the ring's. */
    method PrepareForRun()
      requires Valid()
      modifies this`lifoSlot, this`ring, this`inject, this`outstanding, this`lifoEnabled, this`consecutiveLifo
      ensures Valid() && Held() == old(Held())
      ensures old(lifoSlot.None? || consecutiveLifo < lifoLimit) ==> unchanged(this)
      ensures old(lifoSlot.Some? && consecutiveLifo >= lifoLimit) ==>
        lifoSlot.None? && !lifoEnabled && consecutiveLifo == 0 && Local() != [] && Deferred(old(lifoSlot).value, old(Local()), old(inject))
    {
      hide Contents, TaskRing.Valid, Tasks;
      if lifoEnabled && lifoSlot.Some? && consecutiveLifo >= lifoLimit {
        OneMore(None, Local(), inject, lifoSlot.value);
        EnqueueDeferred(lifoSlot.value);
        lifoSlot, lifoEnabled, consecutiveLifo := None, false, 0;
      }
    }

    /** Takes the newest task of the ring. */
    method PopRing() returns (out: Option<Task>)
      requires Valid()
      modifies this`ring
      ensures Valid() && (out.None? <==> old(Local()) == [])
      ensures Local() + (if out.Some? then [out.value] else []) == old(Local())
    {
      PopBackRemovesNewest(ring);
      var popped := PopBack(ring);
      ring, out := popped.0, popped.1;
    }

    /** The next task: the slot's, else the newest of the ring.  None exactly when there is no local work. */
    method PopNext() returns (out: Option<Task>)
      requires Valid()
      modifies this`lifoSlot, this`ring, this`inject, this`outstanding, this`lifoEnabled, this`consecutiveLifo,
               this`pollsSinceInject
      ensures Valid()
      ensures out.None? <==> old(!HasLocalWork())
      ensures out.None? ==> inject == old(inject) && !HasLocalWork()
      ensures Held() + Given(out) == old(Held())
      ensures old(lifoSlot.Some? && consecutiveLifo < lifoLimit) ==> out == old(lifoSlot) && ring == old(ring) && inject == old(inject)
      ensures old(lifoSlot.None?) && out.Some? ==> Local() + [out.value] == old(Local()) && inject == old(inject)
      ensures old(lifoSlot.Some? && consecutiveLifo >= lifoLimit) ==>
        if |old(Local())| < CAPACITY then out == old(lifoSlot) && Local() == old(Local()) && inject == old(inject)
        else out.Some? && Local() + [out.value] == old(Local()) && inject == old(inject) + [old(lifoSlot).value]
      ensures out.Some? ==> lifoSlot.None? && pollsSinceInject == (old(pollsSinceInject) + 1) % 0x1_0000_0000
      ensures old(lifoSlot.Some? && consecutiveLifo < lifoLimit) ==>
        lifoEnabled && consecutiveLifo == (old(consecutiveLifo) + 1) % 0x1_0000_0000
      ensures out.Some? && !old(lifoSlot.Some? && consecutiveLifo < lifoLimit) ==> lifoEnabled && consecutiveLifo == 0
      ensures out.None? ==> unchanged(this`lifoEnabled, this`consecutiveLifo, this`pollsSinceInject)
    {
      hide Contents, TaskRing.Valid, Tasks;
      PrepareForRun();
      if lifoSlot.Some? {
        OneMore(None, Local(), inject, lifoSlot.value);
        out, lifoSlot := lifoSlot, None;
        consecutiveLifo, pollsSinceInject := Inc32(consecutiveLifo), Inc32(pollsSinceInject);
      } else {
        out := PopRing();
        if out.Some? {
          if old(lifoSlot).Some? && |old(Local())| < CAPACITY {
            SameLast(Local(), out.value, old(Local()), old(lifoSlot).value);
          }
          OneMore(None, Local(), inject, out.value);
          lifoEnabled, consecutiveLifo, pollsSinceInject := true, 0, Inc32(pollsSinceInject);
        }
      }
    }

    /** Moves the victim's oldest task behind this worker's newest. */
    method StealOne(victim: WorkerState) returns (ok: bool)
      requires Valid() && victim.Valid() && victim != this && |Local()| < CAPACITY
      modifies this`ring, victim`ring
      ensures Valid() && victim.Valid()
      ensures ok <==> old(victim.Local()) != [] && !old(victim.Local())[0].ownerOnly
      ensures ok ==> Local() == old(Local()) + [old(victim.Local())[0]] && victim.Local() == old(victim.Local())[1..]
      ensures !ok ==> ring == old(ring) && victim.ring == old(victim.ring)
    {
      StealFrontRemovesOldest(victim.ring);
      var took := StealFront(victim.ring);
      ok := took.1.Some?;
      if ok {
        PushBackAppends(ring, took.1.value);
        victim.ring := took.0;
        ring := PushBack(ring, took.1.value).value;
      }
    }

    /**
     Takes up to half of the victim's ring from its old end, oldest first, stopping at an owner-only
     task; every push succeeds.
     */
    method StealFrom(victim: WorkerState, capacity: nat) returns (stolen: nat)
      requires Valid() && victim.Valid() && victim != this && |Local()| + capacity == CAPACITY
      modifies this`ring, victim`ring
      ensures Valid() && victim.Valid()
      ensures stolen <= Min(capacity, Max(1, |old(victim.Local())| / 2)) && stolen <= |old(victim.Local())|
      ensures stolen == 0 ==> ring == old(ring) && victim.ring == old(victim.ring)
      ensures victim.Local() == old(victim.Local())[stolen..]
      ensures Local() == old(Local()) + old(victim.Local())[..stolen]
      ensures forall i :: 0 <= i < stolen ==> !old(victim.Local())[i].ownerOnly
      ensures stolen < Min(capacity, Max(1, |old(victim.Local())| / 2)) ==>
        stolen == |old(victim.Local())| || old(victim.Local())[stolen].ownerOnly
      ensures Tasks(lifoSlot, Local(), inject) + Tasks(victim.lifoSlot, victim.Local(), victim.inject)
           == old(Tasks(lifoSlot, Local(), inject) + Tasks(victim.lifoSlot, victim.Local(), victim.inject))
    {
      hide Contents, TaskRing.Valid, Tasks, PushBack, StealFront;
      stolen := 0;
      var target := Min(capacity, Max(1, Size(victim.ring) / 2));
      SizeIsLength(victim.ring);
      while stolen < target
        invariant stolen <= target && stolen <= |old(victim.Local())|
        invariant Valid() && victim.Valid()
        invariant stolen == 0 ==> ring == old(ring) && victim.ring == old(victim.ring)
        invariant victim.Local() == old(victim.Local())[stolen..]
        invariant Local() == old(Local()) + old(victim.Local())[..stolen]
        invariant forall i :: 0 <= i < stolen ==> !old(victim.Local())[i].ownerOnly
      {
        var ok := StealOne(victim);
        if !ok {
          break;
        }
        stolen := stolen + 1;
      }
      StealMoves(lifoSlot, old(Local()), inject, victim.lifoSlot, old(victim.Local()), victim.inject, stolen);
    }

    /** A victim that can be robbed: another worker, whose state is in order. */
    ghost predicate Siblings(siblings: seq<WorkerState?>)
      reads this, set w | w in siblings
    {
      forall i :: 0 <= i < |siblings| && siblings[i] != null ==>
        siblings[i].Valid() && (i != selfIndex ==> siblings[i] != this)
    }

    /** The siblings a steal could take something from: other workers whose oldest ring task may be resumed anywhere. */
    ghost function Rich(siblings: seq<WorkerState?>): set<nat>
      requires Siblings(siblings)
      reads this, set w | w in siblings
    {
      set i: nat | i < |siblings| && i != selfIndex && siblings[i] != null && Yields(siblings[i].Local())
    }

    /**
     Robs the first sibling in a circle from `start` that yields anything; `found` is past the end exactly
     when none does.
     */
    method Probe(siblings: seq<WorkerState?>, start: nat, capacity: nat) returns (found: nat)
      requires Valid() && Siblings(siblings) && 0 < capacity && |Local()| + capacity == CAPACITY && siblings != []
      modifies this`ring, (set w: WorkerState? | w in siblings)`ring
      ensures Valid() && Siblings(siblings)
      ensures found >= |siblings| ==> ring == old(ring) && old(Rich(siblings)) == {}
      ensures found < |siblings| ==> FirstInCircle(old(Rich(siblings)), start, |siblings|, found)
      ensures found < |siblings| ==> siblings[found] != null && siblings[found] != this && Local() != []
      ensures found < |siblings| ==> Held() + siblings[found].Held() == old(Held() + siblings[found].Held())
      ensures forall w: WorkerState? :: w in siblings && w != null && w != this ==>
        unchanged(w) || (found < |siblings| && w == siblings[found])
    {
      hide Contents, TaskRing.Valid, Tasks, CircleAt;
      var probe := 0;
      while probe < |siblings|
        invariant 0 <= probe <= |siblings| && Valid() && Siblings(siblings) && ring == old(ring)
        invariant forall w: WorkerState? :: w in siblings && w != null && w != this ==> unchanged(w)
        invariant forall q :: 0 <= q < probe ==> CircleAt(start, q, |siblings|) !in old(Rich(siblings))
      {
        found := CircleAt(start, probe, |siblings|);
        if found != selfIndex && siblings[found] != null && Size(siblings[found].ring) > 0 {
          var stolen := StealFrom(siblings[found], capacity);
          if stolen > 0 {
            assert ComesFirst(old(Rich(siblings)), start, |siblings|, found, probe);
            return;
          }
        } else if siblings[found] != null {
          SizeIsLength(siblings[found].ring);
        }
        probe := probe + 1;
      }
      found := |siblings|;
      forall i: nat | i < |siblings| ensures i !in old(Rich(siblings)) {
        var p := CircleCovers(start, i, |siblings|);
      }
    }

    /**
     Steals when there is nothing else to do and some sibling yields, exactly then.  Tasks only move: what
     this worker gains the one victim, the first in the circle, loses, and nobody else changes.
     */
    method TrySteal(siblings: seq<WorkerState?>, start: nat) returns (ok: bool, ghost victim: WorkerState?)
      requires Valid() && Siblings(siblings)
      modifies this`ring, this`stealAttempts, this`stealSuccesses, this`lifoEnabled, this`consecutiveLifo,
               this`pollsSinceInject, (set w: WorkerState? | w in siblings)`ring
      ensures Valid() && Siblings(siblings)
      ensures ok <==> old(stealingEnabled && !HasLocalWork() && !HasPendingInjected() && |siblings| > 1 && Rich(siblings) != {})
      ensures !ok ==> victim == null && Held() == old(Held())
      ensures ok ==> victim != null && victim != this && Local() != []
      ensures ok ==>
        exists i: nat :: i < |siblings| && victim == siblings[i] && FirstInCircle(old(Rich(siblings)), start, |siblings|, i)
      ensures ok ==> Held() + victim.Held() == old(Held() + victim.Held())
      ensures forall w: WorkerState? :: w in siblings && w != null && w != this ==> unchanged(w) || w == victim
      ensures ok ==> lifoEnabled && consecutiveLifo == 0 && pollsSinceInject == 0 && stealSuccesses == old(stealSuccesses) + 1
      ensures !ok ==> unchanged(this`lifoEnabled, this`consecutiveLifo, this`pollsSinceInject, this`stealSuccesses)
      ensures stealAttempts == old(stealAttempts)
        + if old(stealingEnabled && !HasLocalWork() && !HasPendingInjected() && |siblings| > 1) then 1 else 0
    {
      hide Tasks, Contents, TaskRing.Valid, FirstInCircle;
      victim, ok := null, false;
      if !stealingEnabled || HasLocalWork() || HasPendingInjected() || |siblings| <= 1 {
        return;
      }
      SizeIsLength(ring);
      var capacity := RemainingCapacity(ring);
      if capacity == 0 {
        return;
      }
      stealAttempts := stealAttempts + 1;
      assert Rich(siblings) == old(Rich(siblings));
      var found := Probe(siblings, start, capacity);
      if found < |siblings| {
        FirstIsRich(old(Rich(siblings)), start, |siblings|, found);
        ok, victim := true, siblings[found];
        lifoEnabled, consecutiveLifo, pollsSinceInject := true, 0, 0;
        stealSuccesses := stealSuccesses + 1;
      }
    }

    /** A drained batch is run oldest first when nothing else is scheduled or stolen meanwhile. */
    method DrainThenPop() returns (popped: seq<Task>)
      requires Valid() && lifoSlot.None?
      modifies this
      ensures Valid() && |popped| <= |old(inject)| && popped == old(inject)[..|popped|]
      ensures Local() == old(Local()) && inject == old(inject)[|popped|..]
      ensures |popped| == old(Min(Min(CAPACITY - |Local()|, batch), |inject|))
    {
      hide Contents, TaskRing.Valid, Tasks;
      var count := DrainInjected();
      ghost var batchTaken := old(inject)[..count];
      popped := [];
      while |popped| < count
        invariant Valid() && lifoSlot.None? && |popped| <= count && inject == old(inject)[count..]
        invariant popped == batchTaken[..|popped|]
        invariant Local() == old(Local()) + Reversed(batchTaken[|popped|..])
      {
        ghost var rest := batchTaken[|popped|..];
        assert rest[1..] == batchTaken[|popped| + 1..];
        LastOf(old(Local()), rest);
        NotEmpty(ring);
        var next := PopNext();
        SameLast(Local(), next.value, old(Local()) + Reversed(rest[1..]), rest[0]);
        popped := popped + [next.value];
      }
      assert batchTaken[count..] == [] && batchTaken[..count] == batchTaken;
    }
  }

  predicate Yields(tasks: seq<Task>) {
    tasks != [] && !tasks[0].ownerOnly
  }

  /** The sibling that probe number `p` looks at. */
  function CircleAt(start: nat, p: nat, n: nat): (i: nat)
    requires n > 0
    ensures i < n
  {
    (start + p) % n
  }

  /** The probes start at `start` and go forward one sibling at a time, round the end. */
  lemma CircleGoesForward(start: nat, p: nat, n: nat)
    requires n > 0
    ensures CircleAt(start, 0, n) == start % n
    ensures CircleAt(start, p + 1, n) == if CircleAt(start, p, n) == n - 1 then 0 else CircleAt(start, p, n) + 1
  {
    var q, r := (start + p) / n, (start + p) % n;
    if r == n - 1 {
      RemainderIs(start + p + 1, n, q + 1, 0);
    } else {
      RemainderIs(start + p + 1, n, q, r + 1);
    }
  }

  /** `found` is in the set, and no earlier probe looks at a member of it. */
  ghost predicate FirstInCircle(rich: set<nat>, start: nat, n: nat, found: nat)
    requires n > 0
  {
    found in rich && exists p: nat :: ComesFirst(rich, start, n, found, p)
  }

  ghost predicate ComesFirst(rich: set<nat>, start: nat, n: nat, found: nat, p: nat)
    requires n > 0
  {
    p < n && CircleAt(start, p, n) == found && forall q: nat :: q < p ==> CircleAt(start, q, n) !in rich
  }

  lemma FirstIsRich(rich: set<nat>, start: nat, n: nat, found: nat)
    requires n > 0 && FirstInCircle(rich, start, n, found)
    ensures found in rich
  {
  }

  /** The circle passes every sibling. */
  lemma CircleCovers(start: nat, i: nat, n: nat) returns (p: nat)
    requires i < n
    ensures p < n && CircleAt(start, p, n) == i
  {
    var q, s := start / n, start % n;
    p := if s <= i then i - s else n - s + i;
    RemainderIs(start + p, n, if s <= i then q else q + 1, i);
  }

  lemma RemainderIs(x: nat, n: nat, q: nat, r: nat)
    requires r < n && x == q * n + r
    ensures x % n == r
  {
    var q' := x / n;
    Factor(q, q' + 1, n);
    Factor(q', q + 1, n);
  }

  lemma Factor(a: nat, b: nat, n: nat)
    requires a * n < b * n
    ensures a < b
  {
    if b <= a { Ordered(b, a, n); }
  }

  lemma Ordered(a: nat, b: nat, n: nat)
    requires a <= b
    ensures a * n <= b * n
  {
  }

  lemma SameLast(a: seq<Task>, x: Task, b: seq<Task>, y: Task)
    requires a + [x] == b + [y]
    ensures a == b && x == y
  {
    assert a == (a + [x])[..|a|] && b == (b + [y])[..|b|];
    assert x == (a + [x])[|a|] && y == (b + [y])[|b|];
  }

  lemma LastOf(before: seq<Task>, batch: seq<Task>)
    requires batch != []
    ensures before + Reversed(batch) == before + Reversed(batch[1..]) + [batch[0]]
  {
    Regroup(before, Reversed(batch[1..]), [batch[0]]);
  }

  lemma Regroup(a: seq<Task>, b: seq<Task>, c: seq<Task>)
    ensures a + (b + c) == a + b + c
  {
  }

  lemma NotEmpty(r: Ring)
    requires TaskRing.Valid(r)
    ensures Contents(r) != [] <==> Size(r) > 0
  {
  }

  lemma SizeIsLength(r: Ring)
    requires TaskRing.Valid(r)
    ensures Size(r) == |Contents(r)| && RemainingCapacity(r) == CAPACITY - |Contents(r)|
  {
  }

  lemma StealMoves(slot: Option<Task>, local: seq<Task>, inject: seq<Task>,
                   slot': Option<Task>, local': seq<Task>, inject': seq<Task>, n: nat)
    requires n <= |local'|
    ensures Tasks(slot, local + local'[..n], inject) + Tasks(slot', local'[n..], inject')
         == Tasks(slot, local, inject) + Tasks(slot', local', inject')
  {
    assert local' == local'[..n] + local'[n..];
  }
}
