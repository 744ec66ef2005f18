/**
 The work-stealing task ring as a transition system: one owner and any number of thieves, one step
 per atomic access to the head, the tail or a slot, under sequential consistency.  The owner-only
 flag of a task does not change while the task is in the ring.
 */
module RingProtocol {
  import opened Wrappers

  const CAPACITY: nat := 256

  datatype Task = Task(id: nat, ownerOnly: bool)

  function SlotOf(index: nat): (slot: nat)
    ensures slot < CAPACITY
  {
    index % CAPACITY
  }

  datatype RawRing = Ring(slots: seq<Option<Task>>, head: nat, tail: nat)

  type Ring = r: RawRing | |r.slots| == CAPACITY
    witness Ring(seq(CAPACITY, _ => None), 0, 0)

  /** What the owner does next; `tail` and `head` are the values it has read so far. */
  datatype OwnerPc =
    | OwnerIdle
    | PushHead(task: Task, tail: nat)   // push_back: about to load the head
    | PushSlot(task: Task, tail: nat)   // push_back: guard passed, about to store the slot
    | PushPublish(tail: nat)            // push_back: about to store tail + 1
    | PopReserve(tail: nat)             // pop_back: about to store the decremented tail
    | PopHead(tail: nat)                // pop_back: about to load the head
    | PopRestore(head: nat)             // pop_back: about to give up and store the head into the tail
    | PopCas(tail: nat)                 // pop_back: last element, about to compare-and-swap the head
    | PopAdvance(tail: nat)             // pop_back: swap won, about to store tail + 1
    | PopTakeLast(tail: nat)            // pop_back: about to exchange the slot of the last element
    | PopTake(tail: nat)                // pop_back: about to exchange the slot of a non-last element

  datatype ThiefPc =
    | StealTail(head: nat)                    // about to load the tail
    | StealSlot(head: nat)                    // about to load the candidate
    | StealFlag(head: nat, candidate: Task)   // about to load the owner-only flag
    | StealCas(head: nat, candidate: Task)    // about to compare-and-swap the head
    | StealTake(head: nat, candidate: Task)   // swap won, about to exchange the slot

  /**
   What happened so far: tasks accepted by a push, handed out by a pop or a steal, stolen, and
   overwritten while still in their slot; `blanks` counts the operations that reported success
   with an empty task.
   */
  datatype History = History(
    accepted: multiset<Task>,
    delivered: multiset<Task>,
    stolen: multiset<Task>,
    lost: multiset<Task>,
    blanks: nat)

  datatype State = State(ring: Ring, owner: OwnerPc, thieves: map<nat, ThiefPc>, past: History)

  datatype Step =
    | BeginPush(task: Task)
    | BeginPop
    | Owner
    | Thief(id: nat)

  function Init(): State {
    State(Ring(seq(CAPACITY, _ => None), 0, 0), OwnerIdle, map[],
          History(multiset{}, multiset{}, multiset{}, multiset{}, 0))
  }

  /** The slot exchange that ends a pop or a steal. */
  function Exchange(s: State, index: nat, byThief: bool): State {
    s.(ring := s.ring.(slots := s.ring.slots[SlotOf(index) := None]),
       past := AfterExchange(s.past, s.ring.slots[SlotOf(index)], byThief))
  }

  function AfterExchange(past: History, content: Option<Task>, byThief: bool): History {
    match content
    case None => past.(blanks := past.blanks + 1)
    case Some(task) =>
      past.(delivered := past.delivered + multiset{task},
            stolen := if byThief then past.stolen + multiset{task} else past.stolen)
  }

  /** The plain slot store of a push; whatever was in the slot is gone. */
  function StoreSlot(s: State, task: Task, index: nat): State {
    s.(ring := s.ring.(slots := s.ring.slots[SlotOf(index) := Some(task)]),
       past := AfterStore(s.past, s.ring.slots[SlotOf(index)], task))
  }

  function AfterStore(past: History, content: Option<Task>, task: Task): History {
    past.(accepted := past.accepted + multiset{task},
          lost := if content.Some? then past.lost + multiset{content.value} else past.lost)
  }

  function OwnerStep(s: State): State {
    match s.owner
    case OwnerIdle => s
    case PushHead(task, tail) =>
      s.(owner := if tail - s.ring.head >= CAPACITY then OwnerIdle else PushSlot(task, tail))
    case PushSlot(task, tail) => StoreSlot(s, task, tail).(owner := PushPublish(tail))
    case PushPublish(tail) => s.(ring := s.ring.(tail := tail + 1), owner := OwnerIdle)
    case PopReserve(tail) => s.(ring := s.ring.(tail := tail), owner := PopHead(tail))
    case PopHead(tail) =>
      s.(owner := if s.ring.head > tail then PopRestore(s.ring.head)
                  else if s.ring.head == tail then PopCas(tail)
                  else PopTake(tail))
    case PopRestore(head) => s.(ring := s.ring.(tail := head), owner := OwnerIdle)
    case PopCas(tail) =>
      if s.ring.head == tail then s.(ring := s.ring.(head := tail + 1), owner := PopAdvance(tail))
      else s.(owner := PopRestore(s.ring.head))
    case PopAdvance(tail) => s.(ring := s.ring.(tail := tail + 1), owner := PopTakeLast(tail))
    case PopTakeLast(tail) => Exchange(s, tail, false).(owner := OwnerIdle)
    case PopTake(tail) => Exchange(s, tail, false).(owner := OwnerIdle)
  }

  function ThiefStep(s: State, id: nat): State {
    if id !in s.thieves then s.(thieves := s.thieves[id := StealTail(s.ring.head)]) else
    var quit := s.(thieves := s.thieves - {id});
    match s.thieves[id]
    case StealTail(head) =>
      if head >= s.ring.tail then quit else s.(thieves := s.thieves[id := StealSlot(head)])
    case StealSlot(head) =>
      (match s.ring.slots[SlotOf(head)]
       case None => quit
       case Some(candidate) => s.(thieves := s.thieves[id := StealFlag(head, candidate)]))
    case StealFlag(head, candidate) =>
      if candidate.ownerOnly then quit else s.(thieves := s.thieves[id := StealCas(head, candidate)])
    case StealCas(head, candidate) =>
      if s.ring.head != head then quit else
      s.(ring := s.ring.(head := head + 1), thieves := s.thieves[id := StealTake(head, candidate)])
    case StealTake(head, candidate) => Exchange(quit, head, true)
  }

  /** One step; a step of a participant that is not ready for it changes nothing. */
  function Next(s: State, step: Step): State {
    match step
    case BeginPush(task) => if s.owner.OwnerIdle? then s.(owner := PushHead(task, s.ring.tail)) else s
    case BeginPop =>
      if s.owner.OwnerIdle? && s.ring.tail != 0 then s.(owner := PopReserve(s.ring.tail - 1)) else s
    case Owner => OwnerStep(s)
    case Thief(id) => ThiefStep(s, id)
  }

  function Run(s: State, steps: seq<Step>): State {
    if steps == [] then s else Next(Run(s, steps[..|steps| - 1]), steps[|steps| - 1])
  }

  /** A slot is claimed between a thief's successful head swap and its slot exchange. */
  ghost predicate Claimed(thieves: map<nat, ThiefPc>, slot: nat) {
    exists id :: id in thieves && thieves[id].StealTake? && SlotOf(thieves[id].head) == slot
  }

  /** The next step does not store into a slot that a thief has claimed but not yet emptied. */
  ghost predicate Guarded(s: State, step: Step) {
    step.Owner? && s.owner.PushSlot? ==> !Claimed(s.thieves, SlotOf(s.owner.tail))
  }

  ghost predicate GuardedRun(steps: seq<Step>) {
    steps == [] ||
    (GuardedRun(steps[..|steps| - 1]) && Guarded(Run(Init(), steps[..|steps| - 1]), steps[|steps| - 1]))
  }

  // ---- what holds in every interleaving --------------------------------------------------------

  /** Every accepted occurrence of a task is handed out, in a slot, or overwritten. */
  ghost predicate Balanced(slots: seq<Option<Task>>, past: History, t: Task) {
    past.accepted[t] == past.delivered[t] + past.lost[t] + multiset(slots)[Some(t)]
  }

  lemma SlotUpdateCounts(slots: seq<Option<Task>>, i: nat, x: Option<Task>)
    requires i < |slots|
    ensures multiset(slots[i := x]) == multiset(slots) - multiset{slots[i]} + multiset{x}
  {
    assert slots == slots[..i] + [slots[i]] + slots[i + 1..];
    assert slots[i := x] == slots[..i] + [x] + slots[i + 1..];
  }

  lemma ExchangeBalances(slots: seq<Option<Task>>, past: History, i: nat, byThief: bool, t: Task)
    requires i < |slots| && Balanced(slots, past, t)
    ensures Balanced(slots[i := None], AfterExchange(past, slots[i], byThief), t)
  {
    SlotUpdateCounts(slots, i, None);
  }

  lemma StoreBalances(slots: seq<Option<Task>>, past: History, i: nat, task: Task, t: Task)
    requires i < |slots| && Balanced(slots, past, t)
    ensures Balanced(slots[i := Some(task)], AfterStore(past, slots[i], task), t)
  {
    SlotUpdateCounts(slots, i, Some(task));
  }

  /** The slot whose content the step exchanges or overwrites, if it touches one. */
  function TouchedSlot(s: State, step: Step): Option<nat> {
    match step
    case Owner =>
      (match s.owner
       case PushSlot(_, tail) => Some(SlotOf(tail))
       case PopTakeLast(tail) => Some(SlotOf(tail))
       case PopTake(tail) => Some(SlotOf(tail))
       case _ => None)
    case Thief(id) =>
      if id in s.thieves && s.thieves[id].StealTake? then Some(SlotOf(s.thieves[id].head)) else None
    case _ => None
  }

  lemma OthersUntouched(s: State, step: Step)
    requires TouchedSlot(s, step).None?
    ensures Next(s, step).ring.slots == s.ring.slots && Next(s, step).past == s.past
  {
  }

  lemma NextBalances(s: State, step: Step, t: Task)
    requires Balanced(s.ring.slots, s.past, t)
    ensures Balanced(Next(s, step).ring.slots, Next(s, step).past, t)
  {
    var i := TouchedSlot(s, step);
    if i.None? {
      OthersUntouched(s, step);
    } else if s.owner.PushSlot? && step.Owner? {
      StoreBalances(s.ring.slots, s.past, i.value, s.owner.task, t);
    } else {
      ExchangeBalances(s.ring.slots, s.past, i.value, step.Thief?, t);
    }
  }

  /** In every interleaving a task is handed out at most as often as it was pushed. */
  lemma {:induction false} HandedOutAtMostOnce(steps: seq<Step>, t: Task)
    ensures var s := Run(Init(), steps);
            Balanced(s.ring.slots, s.past, t) && s.past.delivered[t] <= s.past.accepted[t]
  {
    if steps == [] {
      assert Some(t) !in Init().ring.slots;
    } else {
      HandedOutAtMostOnce(steps[..|steps| - 1], t);
      NextBalances(Run(Init(), steps[..|steps| - 1]), steps[|steps| - 1], t);
    }
  }

  // ---- head and tail: again in every interleaving ----------------------------------------------

  /** First index past the tasks that are in their slots and not claimed by a thief. */
  function End(s: State): nat {
    match s.owner
    case PushPublish(tail) => tail + 1
    case PopHead(tail) => tail + 1
    case PopCas(tail) => tail + 1
    case PopTake(tail) => tail + 1
    case PopAdvance(tail) => tail + 1
    case PopTakeLast(tail) => tail + 1
    case PopRestore(head) => head
    case _ => s.ring.tail
  }

  /** First such index: the head, or the element whose head swap the owner has just won. */
  function Begin(s: State): nat {
    match s.owner
    case PopAdvance(tail) => tail
    case PopTakeLast(tail) => tail
    case _ => s.ring.head
  }

  /** First index past the elements a thief may still win. */
  function Stealable(s: State): nat {
    match s.owner
    case PushPublish(tail) => tail
    case PopTake(tail) => tail
    case _ => End(s)
  }

  ghost predicate OwnerIndices(owner: OwnerPc, head: nat, tail: nat) {
    match owner
    case OwnerIdle => head <= tail <= head + CAPACITY
    case PushHead(_, seen) => head <= tail == seen <= head + CAPACITY
    case PushSlot(_, seen) => head <= tail == seen < head + CAPACITY
    case PushPublish(seen) => head <= tail == seen < head + CAPACITY
    case PopReserve(seen) => head <= tail == seen + 1 <= head + CAPACITY
    case PopHead(seen) => head <= tail + 1 == seen + 1 <= head + CAPACITY
    case PopRestore(seen) => tail + 1 == seen == head
    case PopCas(seen) => tail == seen <= head <= seen + 1
    case PopAdvance(seen) => tail == seen && head == seen + 1
    case PopTakeLast(seen) => tail == head == seen + 1
    case PopTake(seen) => head <= tail == seen < head + CAPACITY
  }

  ghost predicate ThiefIndices(s: State, pc: ThiefPc) {
    match pc
    case StealTail(head) => head <= s.ring.head
    case StealTake(head, _) => head < s.ring.head
    case _ => pc.head <= s.ring.head && (pc.head == s.ring.head ==> pc.head < Stealable(s))
  }

  ghost predicate Indexed(s: State) {
    && OwnerIndices(s.owner, s.ring.head, s.ring.tail)
    && (forall id :: id in s.thieves ==> ThiefIndices(s, s.thieves[id]))
  }

  lemma OwnerKeepsIndices(s: State, step: Step)
    requires OwnerIndices(s.owner, s.ring.head, s.ring.tail) && !step.Thief?
    ensures var s' := Next(s, step);
            OwnerIndices(s'.owner, s'.ring.head, s'.ring.tail) && s.ring.head <= s'.ring.head
  {
  }

  lemma OwnerKeepsThief(s: State, step: Step, pc: ThiefPc)
    requires OwnerIndices(s.owner, s.ring.head, s.ring.tail) && !step.Thief? && ThiefIndices(s, pc)
    ensures ThiefIndices(Next(s, step), pc)
  {
  }

  /** A thief that wins its head swap: the owner's and the other thieves' indices still fit. */
  lemma SwapKeepsIndices(s: State, id: nat)
    requires Indexed(s) && id in s.thieves && s.thieves[id].StealCas? && s.thieves[id].head == s.ring.head
    ensures Indexed(ThiefStep(s, id))
  {
    var s' := ThiefStep(s, id);
    assert ThiefIndices(s, s.thieves[id]);
    assert OwnerIndices(s'.owner, s'.ring.head, s'.ring.tail);
    hide OwnerIndices;
    forall other | other in s'.thieves ensures ThiefIndices(s', s'.thieves[other]) {
      if other != id { assert ThiefIndices(s, s.thieves[other]); }
    }
  }

  /** Any other step of a thief leaves head and tail alone. */
  lemma MoveKeepsIndices(s: State, id: nat)
    requires Indexed(s)
    requires id in s.thieves ==> !(s.thieves[id].StealCas? && s.thieves[id].head == s.ring.head)
    ensures Indexed(ThiefStep(s, id))
  {
    hide OwnerIndices;
    var s' := ThiefStep(s, id);
    assert s'.owner == s.owner && s'.ring.head == s.ring.head && s'.ring.tail == s.ring.tail;
    if id in s.thieves { assert ThiefIndices(s, s.thieves[id]); }
    forall other | other in s'.thieves ensures ThiefIndices(s', s'.thieves[other]) {
      if other != id { assert ThiefIndices(s, s.thieves[other]); } else { NewPcFits(s, id); }
    }
  }

  lemma NewPcFits(s: State, id: nat)
    requires OwnerIndices(s.owner, s.ring.head, s.ring.tail)
    requires id in s.thieves ==> ThiefIndices(s, s.thieves[id])
    requires id in s.thieves ==> !(s.thieves[id].StealCas? && s.thieves[id].head == s.ring.head)
    requires id in ThiefStep(s, id).thieves
    ensures ThiefIndices(ThiefStep(s, id), ThiefStep(s, id).thieves[id])
  {
  }

  lemma ThiefKeepsIndices(s: State, id: nat)
    requires Indexed(s)
    ensures Indexed(ThiefStep(s, id))
  {
    hide Indexed, ThiefStep;
    if id in s.thieves && s.thieves[id].StealCas? && s.thieves[id].head == s.ring.head {
      SwapKeepsIndices(s, id);
    } else {
      MoveKeepsIndices(s, id);
    }
  }

  lemma NextIndexed(s: State, step: Step)
    requires Indexed(s)
    ensures Indexed(Next(s, step))
  {
    if step.Thief? {
      ThiefKeepsIndices(s, step.id);
    } else {
      OwnerKeepsIndices(s, step);
      var s' := Next(s, step);
      forall id | id in s'.thieves ensures ThiefIndices(s', s'.thieves[id]) {
        OwnerKeepsThief(s, step, s.thieves[id]);
      }
    }
  }

  // ---- slots: as long as no push stores into a claimed slot ------------------------------------

  lemma DistinctSlots(i: nat, j: nat)
    requires i < j < i + CAPACITY
    ensures SlotOf(i) != SlotOf(j)
  {
  }

  ghost predicate Resident(begin: nat, end: nat, slot: nat) {
    exists i :: begin <= i < end && SlotOf(i) == slot
  }

  ghost predicate ThiefSlots(slots: seq<Option<Task>>, begin: nat, end: nat, head: nat, pc: ThiefPc)
    requires |slots| == CAPACITY
  {
    match pc
    case StealFlag(seen, candidate) => seen == head ==> slots[SlotOf(seen)] == Some(candidate)
    case StealCas(seen, candidate) =>
      !candidate.ownerOnly && (seen == head ==> slots[SlotOf(seen)] == Some(candidate))
    case StealTake(seen, candidate) =>
      !candidate.ownerOnly && slots[SlotOf(seen)] == Some(candidate) && !Resident(begin, end, SlotOf(seen))
    case _ => true
  }

  ghost predicate DistinctClaims(thieves: map<nat, ThiefPc>) {
    forall a, b :: a in thieves && b in thieves && a != b && thieves[a].StealTake? && thieves[b].StealTake?
      ==> SlotOf(thieves[a].head) != SlotOf(thieves[b].head)
  }

  /**
   A slot is full exactly when it holds one of the unclaimed tasks `begin <= i < end` or is claimed
   by exactly one thief, and each thief that can still win holds the task that is in its slot.
   */
  ghost predicate Filled(slots: seq<Option<Task>>, begin: nat, end: nat, head: nat, thieves: map<nat, ThiefPc>)
    requires |slots| == CAPACITY
  {
    && (forall i :: begin <= i < end ==> slots[SlotOf(i)].Some?)
    && (forall k :: 0 <= k < CAPACITY && slots[k].Some? ==> Resident(begin, end, k) || Claimed(thieves, k))
    && (forall id :: id in thieves ==> ThiefSlots(slots, begin, end, head, thieves[id]))
    && DistinctClaims(thieves)
  }

  ghost predicate Aiming(pc: ThiefPc, head: nat) {
    (pc.StealFlag? || pc.StealCas?) && pc.head == head
  }

  /** Thieves that can still win see an index strictly inside the unclaimed range. */
  ghost predicate Winnable(head: nat, limit: nat, thieves: map<nat, ThiefPc>) {
    forall id :: id in thieves && Aiming(thieves[id], head) ==> head < limit
  }

  lemma StoreFills(slots: seq<Option<Task>>, head: nat, end: nat, thieves: map<nat, ThiefPc>, task: Task)
    requires |slots| == CAPACITY && head <= end < head + CAPACITY
    requires Filled(slots, head, end, head, thieves) && Winnable(head, end, thieves)
    ensures slots[SlotOf(end)].Some? <==> Claimed(thieves, SlotOf(end))
    ensures !Claimed(thieves, SlotOf(end)) ==>
              Filled(slots[SlotOf(end) := Some(task)], head, end + 1, head, thieves)
  {
    var k := SlotOf(end);
    forall i | head <= i < end ensures SlotOf(i) != k { DistinctSlots(i, end); }
    if !Claimed(thieves, k) {
      var slots' := slots[k := Some(task)];
      forall j | 0 <= j < CAPACITY && slots'[j].Some?
        ensures Resident(head, end + 1, j) || Claimed(thieves, j)
      {
        if j == k { assert SlotOf(end) == j; }
      }
      forall id | id in thieves ensures ThiefSlots(slots', head, end + 1, head, thieves[id]) {
        assert ThiefSlots(slots, head, end, head, thieves[id]);
      }
    }
  }

  lemma TakeEmpties(slots: seq<Option<Task>>, begin: nat, end: nat, head: nat, thieves: map<nat, ThiefPc>)
    requires |slots| == CAPACITY && begin <= end < begin + CAPACITY
    requires Filled(slots, begin, end + 1, head, thieves)
    requires begin <= head && Winnable(head, end, thieves)
    ensures slots[SlotOf(end)].Some?
    ensures Filled(slots[SlotOf(end) := None], begin, end, head, thieves)
  {
    var k := SlotOf(end);
    var slots' := slots[k := None];
    forall i | begin <= i < end ensures SlotOf(i) != k { DistinctSlots(i, end); }
    forall id | id in thieves ensures ThiefSlots(slots', begin, end, head, thieves[id]) {
      assert ThiefSlots(slots, begin, end + 1, head, thieves[id]);
    }
    forall j | 0 <= j < CAPACITY && slots'[j].Some?
      ensures Resident(begin, end, j) || Claimed(thieves, j)
    {
      assert Resident(begin, end + 1, j) || Claimed(thieves, j);
    }
  }

  lemma SwapClaims(slots: seq<Option<Task>>, end: nat, head: nat, thieves: map<nat, ThiefPc>, id: nat)
    requires |slots| == CAPACITY && head < end <= head + CAPACITY
    requires Filled(slots, head, end, head, thieves)
    requires forall other :: other in thieves ==> thieves[other].head <= head
    requires id in thieves && thieves[id].StealCas? && thieves[id].head == head
    ensures Filled(slots, head + 1, end, head + 1,
                   thieves[id := StealTake(head, thieves[id].candidate)])
  {
    var after := thieves[id := StealTake(head, thieves[id].candidate)];
    forall i | head < i < end ensures SlotOf(i) != SlotOf(head) { DistinctSlots(head, i); }
    assert ThiefSlots(slots, head, end, head, thieves[id]);
    forall other | other in after ensures ThiefSlots(slots, head + 1, end, head + 1, after[other]) {
      assert ThiefSlots(slots, head, end, head, thieves[other]);
      assert SlotOf(head) == SlotOf(head) && Resident(head, end, SlotOf(head));
    }
    forall k | 0 <= k < CAPACITY && slots[k].Some?
      ensures Resident(head + 1, end, k) || Claimed(after, k)
    {
      if Claimed(thieves, k) {
        var a :| a in thieves && thieves[a].StealTake? && SlotOf(thieves[a].head) == k;
        assert a in after && after[a] == thieves[a];
      } else {
        var i :| head <= i < end && SlotOf(i) == k;
        assert after[id].StealTake? && SlotOf(after[id].head) == SlotOf(head);
      }
    }
    assert Resident(head, end, SlotOf(head));
    forall a | a in thieves && thieves[a].StealTake? ensures SlotOf(thieves[a].head) != SlotOf(head) {
      assert ThiefSlots(slots, head, end, head, thieves[a]);
    }
  }

  lemma ExchangeReleases(slots: seq<Option<Task>>, begin: nat, end: nat, head: nat,
                         thieves: map<nat, ThiefPc>, id: nat)
    requires |slots| == CAPACITY && begin <= head
    requires Filled(slots, begin, end, head, thieves) && Winnable(head, end, thieves)
    requires id in thieves && thieves[id].StealTake?
    ensures Filled(slots[SlotOf(thieves[id].head) := None], begin, end, head, thieves - {id})
  {
    var k := SlotOf(thieves[id].head);
    var slots', after := slots[k := None], thieves - {id};
    assert ThiefSlots(slots, begin, end, head, thieves[id]);
    forall other | other in after ensures ThiefSlots(slots', begin, end, head, after[other]) {
      assert ThiefSlots(slots, begin, end, head, thieves[other]);
      if Aiming(after[other], head) { assert Resident(begin, end, SlotOf(head)); }
    }
    forall j | 0 <= j < CAPACITY && slots'[j].Some?
      ensures Resident(begin, end, j) || Claimed(after, j)
    {
      if Claimed(thieves, j) {
        var a :| a in thieves && thieves[a].StealTake? && SlotOf(thieves[a].head) == j;
        assert a in after && after[a] == thieves[a];
      }
    }
  }

  /** A thief moving between program counters without a claim, or giving up, keeps the picture. */
  lemma ThiefMoves(slots: seq<Option<Task>>, begin: nat, end: nat, head: nat,
                   thieves: map<nat, ThiefPc>, after: map<nat, ThiefPc>, id: nat)
    requires |slots| == CAPACITY && Filled(slots, begin, end, head, thieves)
    requires id in thieves ==> !thieves[id].StealTake?
    requires forall other :: other != id ==> (other in after <==> other in thieves)
    requires forall other :: other != id && other in after ==> after[other] == thieves[other]
    requires id in after ==> !after[id].StealTake? && ThiefSlots(slots, begin, end, head, after[id])
    ensures Filled(slots, begin, end, head, after)
  {
    forall k | Claimed(thieves, k) ensures Claimed(after, k) {
      var a :| a in thieves && thieves[a].StealTake? && SlotOf(thieves[a].head) == k;
      assert a in after && after[a] == thieves[a];
    }
    forall other | other in after ensures ThiefSlots(slots, begin, end, head, after[other]) {
      if other != id { assert ThiefSlots(slots, begin, end, head, thieves[other]); }
    }
  }

  ghost predicate CleanPast(past: History) {
    past.blanks == 0 && past.lost == multiset{} && (forall t :: t in past.stolen ==> !t.ownerOnly)
  }

  ghost predicate Sound(s: State) {
    && Indexed(s)
    && Filled(s.ring.slots, Begin(s), End(s), s.ring.head, s.thieves)
    && CleanPast(s.past)
  }

  lemma QuietOwner(s: State, step: Step)
    requires OwnerIndices(s.owner, s.ring.head, s.ring.tail) && !step.Thief? && TouchedSlot(s, step).None?
    ensures var s' := Next(s, step);
            Begin(s') == Begin(s) && End(s') == End(s) && s'.thieves == s.thieves
            && s.ring.head <= s'.ring.head
  {
  }

  lemma FilledThief(slots: seq<Option<Task>>, begin: nat, end: nat, head: nat, thieves: map<nat, ThiefPc>, id: nat)
    requires |slots| == CAPACITY && Filled(slots, begin, end, head, thieves) && id in thieves
    ensures ThiefSlots(slots, begin, end, head, thieves[id])
  {
  }

  lemma ThievesCanWin(s: State)
    requires Indexed(s)
    ensures Winnable(s.ring.head, Stealable(s), s.thieves) && Winnable(s.ring.head, End(s), s.thieves)
  {
    hide OwnerIndices;
    forall id | id in s.thieves && Aiming(s.thieves[id], s.ring.head) ensures s.ring.head < Stealable(s) {
      assert ThiefIndices(s, s.thieves[id]);
    }
    StealableWithin(s);
  }

  lemma StealableWithin(s: State)
    requires Indexed(s)
    ensures Stealable(s) <= End(s)
  {
  }

  /** A step of the owner that touches no slot. */
  lemma QuietKeepsFilled(s: State, step: Step)
    requires Sound(s) && !step.Thief? && TouchedSlot(s, step).None?
    ensures var s' := Next(s, step); Filled(s'.ring.slots, Begin(s'), End(s'), s'.ring.head, s'.thieves)
  {
    QuietOwner(s, step);
    OthersUntouched(s, step);
    hide OwnerIndices, Next, Begin, End, TouchedSlot;
    var s' := Next(s, step);
    forall id | id in s'.thieves
      ensures ThiefSlots(s'.ring.slots, Begin(s'), End(s'), s'.ring.head, s'.thieves[id])
    {
      assert ThiefSlots(s.ring.slots, Begin(s), End(s), s.ring.head, s.thieves[id]);
      assert ThiefIndices(s, s.thieves[id]);
    }
  }

  lemma OwnerKeepsSound(s: State, step: Step)
    requires Sound(s) && !step.Thief? && Guarded(s, step)
    ensures Sound(Next(s, step))
  {
    hide Filled, Resident, Claimed, DistinctClaims;
    NextIndexed(s, step);
    ThievesCanWin(s);
    hide Winnable;
    if TouchedSlot(s, step).None? {
      QuietKeepsFilled(s, step);
      OthersUntouched(s, step);
    } else if s.owner.PushSlot? {
      StoreFills(s.ring.slots, s.ring.head, s.owner.tail, s.thieves, s.owner.task);
    } else {
      TakeEmpties(s.ring.slots, Begin(s), s.owner.tail, s.ring.head, s.thieves);
      if s.owner.PopTakeLast? {
        EmptyRange(s.ring.slots[SlotOf(s.owner.tail) := None], s.owner.tail, s.owner.tail + 1, s.ring.head, s.thieves);
      }
    }
  }

  lemma EmptyRange(slots: seq<Option<Task>>, at: nat, at': nat, head: nat, thieves: map<nat, ThiefPc>)
    requires |slots| == CAPACITY && Filled(slots, at, at, head, thieves)
    ensures Filled(slots, at', at', head, thieves)
  {
    forall id | id in thieves ensures ThiefSlots(slots, at', at', head, thieves[id]) {
      assert ThiefSlots(slots, at, at, head, thieves[id]);
    }
  }

  lemma TakeKeepsSound(s: State, id: nat)
    requires Sound(s) && id in s.thieves && s.thieves[id].StealTake?
    ensures Sound(ThiefStep(s, id))
  {
    hide Filled, Resident, DistinctClaims;
    NextIndexed(s, Thief(id));
    FilledThief(s.ring.slots, Begin(s), End(s), s.ring.head, s.thieves, id);
    ThievesCanWin(s);
    BeginsByHead(s);
    hide Winnable, Indexed, Begin, End;
    ExchangeReleases(s.ring.slots, Begin(s), End(s), s.ring.head, s.thieves, id);
    SameRange(s, ThiefStep(s, id));
  }

  lemma BeginsByHead(s: State)
    requires Indexed(s)
    ensures Begin(s) <= s.ring.head
  {
  }

  /** The range of unclaimed tasks depends on the owner and the indices only. */
  lemma SameRange(s: State, s': State)
    requires s'.owner == s.owner && s'.ring.head == s.ring.head && s'.ring.tail == s.ring.tail
    ensures Begin(s') == Begin(s) && End(s') == End(s)
  {
  }

  lemma SwapKeepsSound(s: State, id: nat)
    requires Sound(s) && id in s.thieves && s.thieves[id].StealCas? && s.thieves[id].head == s.ring.head
    ensures Sound(ThiefStep(s, id))
  {
    hide Filled, Resident, DistinctClaims, CleanPast;
    NextIndexed(s, Thief(id));
    SwapRange(s, id);
    forall other | other in s.thieves ensures s.thieves[other].head <= s.ring.head {
      assert ThiefIndices(s, s.thieves[other]);
    }
    hide Indexed, Begin, End;
    SwapClaims(s.ring.slots, End(s), s.ring.head, s.thieves, id);
  }

  lemma SwapRange(s: State, id: nat)
    requires Indexed(s) && id in s.thieves && s.thieves[id].StealCas? && s.thieves[id].head == s.ring.head
    ensures var s' := ThiefStep(s, id);
      && Begin(s) == s.ring.head < End(s) <= s.ring.head + CAPACITY
      && Begin(s') == s.ring.head + 1 && End(s') == End(s)
  {
    assert ThiefIndices(s, s.thieves[id]);
  }

  /** Where a thief's own move takes it, short of a claim. */
  lemma MovedPc(s: State, id: nat)
    requires id in s.thieves ==>
      && !s.thieves[id].StealTake? && !(s.thieves[id].StealCas? && s.thieves[id].head == s.ring.head)
      && ThiefSlots(s.ring.slots, Begin(s), End(s), s.ring.head, s.thieves[id])
    ensures var s' := ThiefStep(s, id);
      && s'.ring == s.ring && s'.owner == s.owner && s'.past == s.past
      && (forall other :: other != id ==> (other in s'.thieves <==> other in s.thieves))
      && (forall other :: other != id && other in s'.thieves ==> s'.thieves[other] == s.thieves[other])
      && (id in s'.thieves ==> !s'.thieves[id].StealTake?)
      && (id in s'.thieves ==> ThiefSlots(s.ring.slots, Begin(s), End(s), s.ring.head, s'.thieves[id]))
  {
    hide Resident, Begin, End, SlotOf;
  }

  lemma MoveKeepsSound(s: State, id: nat)
    requires Sound(s)
    requires id in s.thieves ==>
               !s.thieves[id].StealTake? && !(s.thieves[id].StealCas? && s.thieves[id].head == s.ring.head)
    ensures Sound(ThiefStep(s, id))
  {
    hide Filled, Indexed, CleanPast, ThiefStep, ThiefSlots, Begin, End;
    NextIndexed(s, Thief(id));
    if id in s.thieves { FilledThief(s.ring.slots, Begin(s), End(s), s.ring.head, s.thieves, id); }
    MovedPc(s, id);
    ThiefMoves(s.ring.slots, Begin(s), End(s), s.ring.head, s.thieves, ThiefStep(s, id).thieves, id);
    SameRange(s, ThiefStep(s, id));
  }

  lemma NextSound(s: State, step: Step)
    requires Sound(s) && Guarded(s, step)
    ensures Sound(Next(s, step))
  {
    if !step.Thief? {
      OwnerKeepsSound(s, step);
    } else if step.id in s.thieves && s.thieves[step.id].StealTake? {
      TakeKeepsSound(s, step.id);
    } else if step.id in s.thieves && s.thieves[step.id].StealCas? && s.thieves[step.id].head == s.ring.head {
      SwapKeepsSound(s, step.id);
    } else {
      MoveKeepsSound(s, step.id);
    }
  }

  /** A store into a claimed slot loses the task that the claim is for, for good. */
  lemma UnguardedLoses(s: State, step: Step)
    requires Sound(s) && !Guarded(s, step)
    ensures Next(s, step).past.lost != multiset{}
  {
    ThievesCanWin(s);
    StoreFills(s.ring.slots, s.ring.head, s.owner.tail, s.thieves, s.owner.task);
    var gone := s.ring.slots[SlotOf(s.owner.tail)].value;
    assert gone in Next(s, step).past.lost;
  }

  lemma LossIsForever(s: State, step: Step)
    ensures s.past.lost <= Next(s, step).past.lost
  {
    if TouchedSlot(s, step).None? { OthersUntouched(s, step); }
  }

  /** Head and tail stay ordered in every interleaving, so the push guard never wraps around. */
  lemma {:induction false} IndicesStayOrdered(steps: seq<Step>)
    ensures Indexed(Run(Init(), steps))
  {
    if steps != [] {
      IndicesStayOrdered(steps[..|steps| - 1]);
      NextIndexed(Run(Init(), steps[..|steps| - 1]), steps[|steps| - 1]);
    }
  }

  /**
   A run loses no task exactly when none of its pushes stores into a slot that a thief has claimed
   and not yet emptied; then every reported success carries a task and no stolen task is owner-only.
   */
  lemma {:induction false} LosslessIffGuarded(steps: seq<Step>)
    ensures Run(Init(), steps).past.lost == multiset{} <==> GuardedRun(steps)
    ensures GuardedRun(steps) ==> Sound(Run(Init(), steps))
  {
    if steps == [] {
    } else {
      var before, step := Run(Init(), steps[..|steps| - 1]), steps[|steps| - 1];
      LosslessIffGuarded(steps[..|steps| - 1]);
      LossIsForever(before, step);
      if GuardedRun(steps[..|steps| - 1]) {
        if Guarded(before, step) { NextSound(before, step); } else { UnguardedLoses(before, step); }
      }
    }
  }
}
