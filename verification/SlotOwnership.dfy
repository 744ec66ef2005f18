/**
 The read and write slots of an IO controller, shared by ordinary awaitables and by sequences that
 own slots while they are suspended.  Awaitables are told apart by number; the controller keeps the
 fields that its sequences hold about their registration.
 */
module SlotOwnership {
  import opened Wrappers
  import opened Domains

  datatype Slots<+T> = Slots(read: T, write: T) {
    function At(slot: Slot): T { if slot.READ? then read else write }

    function With(slot: Slot, value: T): Slots<T> {
      if slot.READ? then this.(read := value) else this.(write := value)
    }
  }

  type Awaitable = nat
  type Sequence = nat

  /** `active` is the event of the sequence's front task. */
  datatype SequenceState = SequenceState(
    requested: Domain,
    registered: bool,
    registeredDomain: Domain,
    active: Option<Event>)
  {
    predicate WaitsOn(slot: Slot) { active.Some? && EventUsesSlot(active.value, slot) }
  }

  /** The slot that an ordinary await fills. */
  function SlotOf(event: Event): Slot
    requires event != SEQUENCE
  {
    match event
    case RECV => READ
    case READV => READ
    case FILEREAD => READ
    case RECVFROM => READ
    case FILEWATCH => READ
    case ACCEPT => READ
    case SEND => WRITE
    case WRITEV => WRITE
    case SENDFILE => WRITE
    case FILEWRITE => WRITE
    case SENDTO => WRITE
    case CONNECT => WRITE
  }

  /** An await fills exactly the slot that its event uses; a sequence's own event uses none. */
  lemma FillsWhatItUses(event: Event, slot: Slot)
    ensures EventUsesSlot(event, slot) <==> event != SEQUENCE && slot == SlotOf(event)
  {
  }

  class IOController {
    var types: set<Event>
    var awaitable: Slots<Option<Awaitable>>
    var owner: Slots<Option<Sequence>>
    var interest: set<Slot>
    var sequences: map<Sequence, SequenceState>

    ghost predicate Valid()
      reads this`types, this`awaitable, this`owner, this`sequences
    {
      && (forall slot: Slot :: awaitable.At(slot).None? || owner.At(slot).None?)
      && (forall slot: Slot :: owner.At(slot).Some? ==> OwnsItsDomain(owner.At(slot).value, slot))
      && (SEQUENCE in types <==> owner.read.Some? || owner.write.Some?)
    }

    ghost predicate OwnsItsDomain(s: Sequence, slot: Slot)
      reads this`owner, this`sequences
    {
      && s in sequences && sequences[s].registered
      && sequences[s].registeredDomain == sequences[s].requested
      && DomainUsesSlot(sequences[s].requested, slot)
      && forall other: Slot :: DomainUsesSlot(sequences[s].requested, other) ==> owner.At(other) == Some(s)
    }

    /** Every sequence's event lies in its domain, as it does for a built awaitable. */
    ghost predicate Covered()
      reads this`sequences
    {
      forall s :: s in sequences && sequences[s].active.Some? ==> Covers(sequences[s].requested, sequences[s].active.value)
    }

    constructor ()
      ensures Valid() && Covered() && sequences == map[]
      ensures owner == Slots(None, None) && awaitable == Slots(None, None)
    {
      types, awaitable, owner, interest := {}, Slots(None, None), Slots(None, None), {};
      sequences := map[];
    }

    method Create(s: Sequence, domain: Domain)
      requires Valid() && s !in sequences
      modifies this`sequences
      ensures Valid() && sequences == old(sequences)[s := SequenceState(domain, false, domain, None)]
      ensures old(Covered()) ==> Covered()
    {
      sequences := sequences[s := SequenceState(domain, false, domain, None)];
    }

    predicate CanClaim(s: Sequence, slot: Slot)
      reads this
    {
      awaitable.At(slot).None? && (owner.At(slot).None? || owner.At(slot) == Some(s))
    }

    /** Takes every slot of the requested domain or none, and succeeds exactly when all are free. */
    method Claim(s: Sequence) returns (ok: bool)
      requires Valid() && s in sequences
      modifies this`types, this`owner, this`sequences
      ensures Valid()
      ensures ok <==> forall slot: Slot :: DomainUsesSlot(old(sequences)[s].requested, slot) ==> old(CanClaim(s, slot))
      ensures forall slot: Slot ::
        owner.At(slot) == if ok && DomainUsesSlot(old(sequences)[s].requested, slot) then Some(s) else old(owner.At(slot))
      ensures ok && old(sequences)[s].requested.Read? ==> owner == old(owner).(read := Some(s))
      ensures ok && old(sequences)[s].requested.Write? ==> owner == old(owner).(write := Some(s))
      ensures ok && old(sequences)[s].requested.ReadWrite? ==> owner == Slots(Some(s), Some(s))
      ensures types == if ok then old(types) + {SEQUENCE} else old(types)
      ensures sequences == old(sequences)[s := old(sequences)[s].(registered := ok,
        registeredDomain := if ok then old(sequences)[s].requested else old(sequences)[s].registeredDomain)]
    {
      sequences := sequences[s := sequences[s].(registered := false)];
      var needRead := DomainUsesSlot(sequences[s].requested, READ);
      var needWrite := DomainUsesSlot(sequences[s].requested, WRITE);
      ok := (needRead ==> CanClaim(s, READ)) && (needWrite ==> CanClaim(s, WRITE));
      if ok {
        if needRead { owner := owner.With(READ, Some(s)); }
        if needWrite { owner := owner.With(WRITE, Some(s)); }
        types := types + {SEQUENCE};
        sequences := sequences[s := sequences[s].(registered := true, registeredDomain := sequences[s].requested)];
      }
      forall slot: Slot | owner.At(slot).Some?
        ensures OwnsItsDomain(owner.At(slot).value, slot)
      {
        if owner.At(slot) == old(owner.At(slot)) {
          assert old(OwnsItsDomain(owner.At(slot).value, slot));
        }
      }
    }

    /** Gives up what the sequence owns and nothing else, also when the controller was closed in between. */
    method Release(s: Sequence)
      requires Valid() && s in sequences
      modifies this`types, this`owner, this`sequences, this`interest
      ensures Valid()
      ensures forall slot: Slot :: owner.At(slot) == if old(owner.At(slot)) == Some(s) then None else old(owner.At(slot))
      ensures sequences == old(sequences)[s := old(sequences)[s].(registered := false)]
      ensures types - {SEQUENCE} == old(types) - {SEQUENCE}
      ensures old(sequences[s].registered) ==> interest == Collect()
      ensures !old(sequences[s].registered) ==> interest == old(interest) && types == old(types)
    {
      if sequences[s].registered {
        if DomainUsesSlot(sequences[s].registeredDomain, READ) && owner.read == Some(s) {
          owner := owner.With(READ, None);
        }
        if DomainUsesSlot(sequences[s].registeredDomain, WRITE) && owner.write == Some(s) {
          owner := owner.With(WRITE, None);
        }
        sequences := sequences[s := sequences[s].(registered := false)];
        if owner.read.None? && owner.write.None? {
          types := types - {SEQUENCE};
          interest := {};
        } else {
          Sync();
        }
      }
      forall slot: Slot | owner.At(slot).Some?
        ensures OwnsItsDomain(owner.At(slot).value, slot)
      {
        assert old(OwnsItsDomain(owner.At(slot).value, slot));
      }
    }

    /** An ordinary await is refused when a sequence owns its slot, and then changes nothing. */
    method SuspendOrdinary(event: Event, a: Awaitable) returns (accepted: bool)
      requires Valid() && event != SEQUENCE
      modifies this`types, this`awaitable
      ensures Valid()
      ensures accepted <==> owner.At(SlotOf(event)).None?
      ensures !accepted ==> types == old(types) && awaitable == old(awaitable)
      ensures accepted ==> types == old(types) + {event} && awaitable == old(awaitable).With(SlotOf(event), Some(a))
    {
      accepted := !((EventUsesSlot(event, READ) && owner.read.Some?) || (EventUsesSlot(event, WRITE) && owner.write.Some?));
      if accepted {
        types := types + {event};
        awaitable := awaitable.With(SlotOf(event), Some(a));
      }
    }

    /** However late an ordinary await resumes, no sequence loses a slot. */
    method ResumeOrdinary(event: Event)
      requires Valid() && event != SEQUENCE
      modifies this`types, this`awaitable
      ensures Valid() && types == old(types) - {event}
      ensures awaitable == old(awaitable).With(SlotOf(event), None)
    {
      types := types - {event};
      awaitable := awaitable.With(SlotOf(event), None);
    }

    method Close()
      requires Valid()
      modifies this`types, this`awaitable, this`owner, this`interest
      ensures Valid() && types == {} && interest == {}
      ensures owner == Slots(None, None) && awaitable == Slots(None, None)
    {
      types, awaitable, owner, interest := {}, Slots(None, None), Slots(None, None), {};
    }

    // ---- interest --------------------------------------------------------------------------------

    function Asks(s: Sequence): set<Slot>
      reads this`sequences
    {
      if s in sequences && sequences[s].active.Some? then
        (if EventUsesSlot(sequences[s].active.value, READ) then {READ} else {})
        + (if EventUsesSlot(sequences[s].active.value, WRITE) then {WRITE} else {})
      else {}
    }

    /** The union over the distinct owners. */
    function Collect(): set<Slot>
      reads this`owner, this`sequences
    {
      (if owner.read.None? then {} else Asks(owner.read.value))
      + (if owner.write.None? || owner.write == owner.read then {} else Asks(owner.write.value))
    }

    method Sync()
      modifies this`interest
      ensures interest == Collect()
    {
      interest := Collect();
    }

    /** The slot's owner exists and waits on the slot. */
    predicate Served(slot: Slot)
      reads this`owner, this`sequences
    {
      owner.At(slot).Some? && owner.At(slot).value in sequences && sequences[owner.At(slot).value].WaitsOn(slot)
    }

    /** With covered events the mask asks for exactly the slots whose own owner waits on them. */
    lemma MaskIsWhatOwnersWaitFor(slot: Slot)
      requires Valid() && Covered()
      ensures slot in Collect() <==> Served(slot)
    {
      forall x: Slot | owner.At(x).Some? && slot in Asks(owner.At(x).value)
        ensures owner.At(slot) == owner.At(x)
      {
        assert OwnsItsDomain(owner.At(x).value, x);
      }
      assert owner.At(READ) == owner.read && owner.At(WRITE) == owner.write;
    }

    /** Coverage is what it takes: an owner whose event is outside its domain waits on a slot it does not own. */
    lemma ServedIffCovered(slot: Slot)
      requires Valid() && owner.At(slot).Some? && sequences[owner.At(slot).value].active.Some?
      ensures var s := owner.At(slot).value;
        Covers(sequences[s].requested, sequences[s].active.value) <==>
        forall other: Slot :: sequences[s].WaitsOn(other) ==> owner.At(other) == Some(s)
    {
      assert OwnsItsDomain(owner.At(slot).value, slot);
      forall other: Slot | owner.At(other) == owner.At(slot)
        ensures DomainUsesSlot(sequences[owner.At(slot).value].requested, other)
      {
        assert OwnsItsDomain(owner.At(other).value, other);
      }
    }

    /** The sequence's front task becomes one that waits on `next`, or there is none. */
    method Progress(s: Sequence, next: Option<Event>)
      requires Valid() && s in sequences
      modifies this`sequences
      ensures Valid() && sequences == old(sequences)[s := old(sequences)[s].(active := next)]
      ensures old(Covered()) && (next.Some? ==> Covers(old(sequences)[s].requested, next.value)) ==> Covered()
    {
      sequences := sequences[s := sequences[s].(active := next)];
    }

    /**
     A readiness report: each slot that the mask asks for reaches the owner that waits on it, each
     owner once, and nobody else.  `next` is what the owner reached through a slot waits on afterwards.
     */
    method Dispatch(ready: set<Slot>, next: Slots<Option<Event>>) returns (reached: seq<Sequence>)
      requires Valid() && Covered()
      modifies this`sequences, this`interest
      ensures Valid()
      ensures (forall slot: Slot :: old(Served(slot)) && next.At(slot).Some? ==>
        Covers(old(sequences)[owner.At(slot).value].requested, next.At(slot).value)) ==> Covered()
      ensures forall slot: Slot :: slot in ready && slot in old(Collect()) ==> old(Served(slot)) && owner.At(slot).value in reached
      ensures forall s :: s in reached ==> exists slot: Slot :: slot in ready && old(Served(slot)) && owner.At(slot) == Some(s)
      ensures |reached| <= 2 && (|reached| == 2 ==> reached[0] != reached[1])
      ensures if reached != [] then interest == Collect() else sequences == old(sequences) && interest == old(interest)
    {
      hide Collect, Asks, OwnsItsDomain, Covers, EventUsesSlot;
      reached := [];
      MaskIsWhatOwnersWaitFor(READ);
      MaskIsWhatOwnersWaitFor(WRITE);
      if READ in ready && Served(READ) {
        assert owner.At(READ) == owner.read;
        Progress(owner.read.value, next.read);
        Sync();
        reached := [owner.read.value];
      }
      if WRITE in ready && Served(WRITE) && (reached == [] || owner.write != owner.read) {
        assert owner.At(WRITE) == owner.write;
        Progress(owner.write.value, next.write);
        Sync();
        reached := reached + [owner.write.value];
      }
    }
  }
}
