/** The five-level timing wheel: push, tick, and the cascades between levels. */
module TimingWheel {
  import opened Wrappers
  import opened WheelMath
  import opened WheelStore
  import opened WheelSchedule

  /** A clock that may advance between any two readings and never goes back. */
  class SteadyClock {
    var time: nat

    constructor (start: nat)
      ensures time == start
    {
      time := start;
    }

    method Now() returns (t: nat)
      modifies this
      ensures old(time) <= time == t
    {
      var passed :| 0 <= passed;
      time := time + passed;
      t := time;
    }
  }

  class Manager {
    const tickDuration: nat
    var currentTick: nat
    var wheels: Wheels
    var size: nat
    var startTime: nat
    var done: set<nat>         // ids of timers whose done flag is set
    var cancelled: set<nat>    // ids of timers whose cancel flag is set

    // History: timers a push accepted, timers a cascade dropped, every call of a timer's handler.
    ghost var accepted: multiset<Timer>
    ghost var dropped: multiset<Timer>
    ghost var fired: seq<Firing>
    ghost var seen: nat
    ghost var slack: nat
    ghost var aligned: bool
    ghost var pushed: nat
    ghost var calls: seq<Call>

    ghost function Now(): Epoch
      reads this
    {
      Epoch(tickDuration, startTime, currentTick, seen, slack, aligned, pushed)
    }

    /** Timers that left the wheel: by their handler, or dropped because done or cancelled. */
    ghost function Gone(): multiset<Timer>
      reads this`fired, this`dropped
    {
      FiredTimers(fired) + dropped
    }

    /** The done flags are those of the fired timers, and only done or cancelled timers were dropped. */
    ghost predicate Idle()
      reads this`done, this`fired, this`dropped, this`cancelled
    {
      && done == FiredIds(fired)
      && forall t :: t in dropped ==> t.id in done || t.id in cancelled
    }

    /** The state inside a tick: `held` is what a cascade has taken out of its slot. */
    ghost predicate Running(k: int, held: seq<Entry>)
      reads this
    {
      && Shaped(wheels)
      && Begun(Now())
      && Kept(wheels, Now(), k, fired)
      && Counted(wheels, size, held, accepted, Gone())
      && Idle()
    }

    /** The state between ticks. */
    ghost predicate Steady()
      reads this
    {
      && Shaped(wheels)
      && Reached(Now())
      && pushed <= seen
      && Kept(wheels, Now(), 0, fired)
      && Counted(wheels, size, [], accepted, Gone())
      && Idle()
    }

    /** The alignment and the slack are what the calls so far make them. */
    ghost predicate Recorded()
      reads this
    {
      aligned == AllInTurn(calls, tickDuration) && slack <= MostTicks(calls)
    }

    ghost predicate Valid()
      reads this
    {
      Steady() && Recorded()
    }

    /** Histories only grow. */
    twostate predicate Grew()
      reads this
    {
      old(fired) <= fired && old(dropped) <= dropped
    }

    /** First-level slots only get entries behind those they have. */
    twostate predicate FirstGrew()
      reads this
    {
      && Shaped(old(wheels)) && Shaped(wheels)
      && forall i :: 0 <= i < Slots(0) ==> old(wheels[0][i]) <= wheels[0][i]
    }

    /**
     The earliness bound over every run: if all pushes to the first level were within a turn and no tick
     had more than `most` ticks to catch up with, no timer fires `most + 1` or more ticks early.
     */
    lemma NeverEarly(most: nat)
      requires Valid() && AllInTurn(calls, tickDuration)
      requires forall c :: c in calls && c.TickCall? ==> c.ticks <= most
      ensures forall f :: f in fired ==> f.timer.expires < f.at + (most + 1) * tickDuration
    {
      MostTicksBounded(calls, most);
      MulMonotone(slack + 1, most + 1, tickDuration);
      forall f | f in fired ensures f.timer.expires < f.at + (most + 1) * tickDuration {
        assert InBound(f, Now());
      }
    }

    /** ... and whatever the pushes, a timer fires less than a turn early, or less than `most + 1` ticks. */
    lemma NeverATurnEarly(most: nat)
      requires Valid() && forall c :: c in calls && c.TickCall? ==> c.ticks <= most
      ensures forall f :: f in fired ==> f.timer.expires < f.at + Max(most + 1, Span(0)) * tickDuration
    {
      MostTicksBounded(calls, most);
      MulMonotone(slack + 1, Max(most + 1, Span(0)), tickDuration);
      MulMonotone(Span(0), Max(most + 1, Span(0)), tickDuration);
      forall f | f in fired ensures f.timer.expires < f.at + Max(most + 1, Span(0)) * tickDuration {
        assert InBound(f, Now());
      }
    }

    constructor (tickDuration: nat, clock: SteadyClock)
      requires tickDuration > 0
      modifies clock
      ensures Valid() && seen == clock.time && old(clock.time) <= clock.time
      ensures size == 0 && fired == [] && dropped == multiset{} && accepted == multiset{} && calls == []
      ensures this.tickDuration == tickDuration && cancelled == {} && wheels == EmptyWheels()
    {
      this.tickDuration := tickDuration;
      currentTick, wheels, size, done, cancelled := 0, EmptyWheels(), 0, {}, {};
      accepted, dropped, fired, slack, aligned := multiset{}, multiset{}, [], 0, true;
      var now := clock.Now();
      startTime, seen, pushed, calls := now, now, now, [];
      new;
      NoWheelEntries(wheels);
      assert Reached(Now());
    }

    method Cancel(id: nat)
      requires Valid()
      modifies this`cancelled
      ensures Valid() && cancelled == old(cancelled) + {id}
    {
      cancelled := cancelled + {id};
    }

    /** An expired timer is accepted and its handler, which marks it done, runs at once. */
    method HandleTimeout(timer: Timer, ghost at: nat)
      requires Steady() && timer.expires < at + tickDuration
      modifies this`done, this`fired, this`accepted
      ensures Steady() && done == old(done) + {timer.id}
      ensures fired == old(fired) + [Firing(timer, at)] && accepted == old(accepted) + multiset{timer}
    {
      hide Kept, Counted, FiredTimers, FiredIds;
      FireNow(wheels, timer, at, Now(), 0, fired);
      FireAcceptedCounted(wheels, size, accepted, Gone(), timer);
      FiredOneMore(fired, dropped, timer, at);
      FiredIdsOneMore(fired, Firing(timer, at));
      done := done + {timer.id};
      fired := fired + [Firing(timer, at)];
      accepted := accepted + multiset{timer};
    }

    method Push(pushing: Option<Timer>, clock: SteadyClock) returns (ok: bool)
      requires Valid() && seen <= clock.time
      modifies this`seen, this`startTime, this`currentTick, this`wheels, this`size, this`pushed,
               this`accepted, this`aligned, this`done, this`fired, this`calls, clock
      ensures Valid() && old(clock.time) <= clock.time && seen <= clock.time
      ensures pushing.None? ==> !ok && unchanged(this)
      ensures pushing.Some? ==> PushedNow(pushing.value, clock.time, ok)
    {
      if pushing.None? {
        return false;
      }
      var now := clock.Now();
      ok := PushAt(pushing.value, now);
    }

    /**
     A push at `now` fires an expired timer at once, refuses one that is 2^32 ticks away or more, and
     stores any other; an empty wheel is first rebased to `now`.  The call is recorded, and alignment is
     lost exactly by a push out of turn.
     */
    twostate predicate PushedNow(timer: Timer, now: nat, ok: bool)
      reads this
    {
      && seen == now
      && (if old(size) == 0 then startTime == now && currentTick == 0
          else startTime == old(startTime) && currentTick == old(currentTick))
      && tickDuration > 0 && startTime <= now && Shaped(old(wheels))
      && aligned == (old(aligned) && WithinTurn(timer, startTime, currentTick, now, tickDuration))
      && calls == old(calls) + [PushCall(timer, startTime, currentTick, now)]
      && if timer.expires <= now then
           ok && wheels == old(wheels) && size == old(size) && accepted == old(accepted) + multiset{timer}
           && fired == old(fired) + [Firing(timer, now)] && done == old(done) + {timer.id}
         else if DelayTicks(timer, now, tickDuration) >= Span(4) then
           !ok && wheels == old(wheels) && size == old(size) && accepted == old(accepted)
           && fired == old(fired) && done == old(done)
         else
           ok && wheels == Inserted(old(wheels), timer, startTime, now, tickDuration) && size == old(size) + 1
           && accepted == old(accepted) + multiset{timer} && fired == old(fired) && done == old(done)
    }

    method PushAt(timer: Timer, now: nat) returns (ok: bool)
      requires Valid() && seen <= now
      modifies this`seen, this`startTime, this`currentTick, this`wheels, this`size, this`pushed,
               this`accepted, this`aligned, this`done, this`fired, this`calls
      ensures Valid() && PushedNow(timer, now, ok)
    {
      hide Manager.Steady, AllInTurn, MostTicks, WithinTurn, Shaped, Inserted, DelayTicks;
      Observe(now);
      ok := Admit(timer, now);
      RecordPush(PushCall(timer, startTime, currentTick, now), old(aligned));
    }

    /** What a push does after it has looked at the clock. */
    method Admit(timer: Timer, now: nat) returns (ok: bool)
      requires Steady() && seen == now
      modifies this`wheels, this`size, this`pushed, this`accepted, this`aligned, this`done, this`fired
      ensures Steady() && ok == (timer.expires <= now || DelayTicks(timer, now, tickDuration) < Span(4))
      ensures aligned == (old(aligned) && WithinTurn(timer, startTime, currentTick, now, tickDuration))
      ensures timer.expires <= now ==>
        wheels == old(wheels) && size == old(size) && accepted == old(accepted) + multiset{timer}
        && fired == old(fired) + [Firing(timer, now)] && done == old(done) + {timer.id}
      ensures !ok ==>
        wheels == old(wheels) && size == old(size) && accepted == old(accepted)
        && fired == old(fired) && done == old(done)
      ensures now < timer.expires && ok ==>
        wheels == Inserted(old(wheels), timer, startTime, now, tickDuration) && size == old(size) + 1
        && accepted == old(accepted) + multiset{timer} && fired == old(fired) && done == old(done)
    {
      hide Kept, Counted, FiredTimers, FiredIds, Idle;
      ok := timer.expires <= now || DelayTicks(timer, now, tickDuration) < Span(4);
      if timer.expires <= now {
        HandleTimeout(timer, now);
      } else if ok {
        Store(timer, now);
      }
    }

    /** Notes a push whose effect on the alignment is accounted for. */
    ghost method RecordPush(call: Call, before: bool)
      requires Steady() && call.PushCall? && call.start <= call.now && slack <= MostTicks(calls)
      requires before == AllInTurn(calls, tickDuration)
      requires aligned == (before && WithinTurn(call.timer, call.start, call.tick, call.now, tickDuration))
      modifies this`calls
      ensures Valid() && calls == old(calls) + [call]
    {
      InTurnOneMore(calls, call, tickDuration);
      MostTicksOneMore(calls, call);
      calls := calls + [call];
    }

    /** An empty wheel restarts its ticks at the present, so that idle time is not replayed. */
    method Observe(now: nat)
      requires Steady() && seen <= now
      modifies this`seen, this`startTime, this`currentTick
      ensures Steady() && Shaped(wheels) && startTime <= seen == now && tickDuration > 0
      ensures size == 0 ==> startTime == now && currentTick == 0
      ensures size > 0 ==> startTime == old(startTime) && currentTick == old(currentTick)
    {
      hide Kept, Counted, Idle, FiredTimers, FiredIds, Reached, Shaped;
      ReachedKnows(Now());
      SeenLater(wheels, Now(), now, fired);
      seen := now;
      if size == 0 {
        ReachedAtStart(Epoch(tickDuration, now, 0, now, slack, aligned, pushed));
        NothingCounted(wheels, size, accepted, Gone());
        EmptyKept(wheels, Now(), Epoch(tickDuration, now, 0, now, slack, aligned, pushed), fired);
        startTime, currentTick := now, 0;
      }
    }

    method Store(timer: Timer, now: nat)
      requires Steady() && seen == now < timer.expires && DelayTicks(timer, now, tickDuration) < Span(4)
      modifies this`wheels, this`size, this`accepted, this`aligned, this`pushed
      ensures Steady() && accepted == old(accepted) + multiset{timer} && size == old(size) + 1
      ensures wheels == Inserted(old(wheels), timer, startTime, now, tickDuration)
      ensures aligned == (old(aligned) && WithinTurn(timer, startTime, currentTick, now, tickDuration))
    {
      hide Kept, Counted, Idle, FiredTimers, FiredIds, WithinTurn;
      InsertKeeps(wheels, Now(), timer, fired);
      PlaceCounted(wheels, size, LevelFor(DelayTicks(timer, now, tickDuration)),
                   PushedEntry(timer, startTime, now, tickDuration), accepted, Gone());
      aligned := aligned && WithinTurn(timer, startTime, currentTick, now, tickDuration);
      wheels := Inserted(wheels, timer, startTime, now, tickDuration);
      size := size + 1;
      accepted := accepted + multiset{timer};
      pushed := now;
    }

    // ---- tick ----------------------------------------------------------------------------------

    /** Take the next held timer, which is done or cancelled, out for good. */
    method Drop(timer: Timer, ghost k: int, ghost held: seq<Entry>)
      requires Running(k, held) && held != [] && held[0].timer == timer
      requires timer.id in done || timer.id in cancelled
      modifies this`size, this`dropped
      ensures Running(k, held[1..]) && dropped == old(dropped) + multiset{timer}
    {
      hide Kept, Counted, FiredTimers, FiredIds;
      DropCounted(wheels, size, held, accepted, Gone());
      size := size - 1;
      dropped := dropped + multiset{timer};
      assert Gone() == old(Gone()) + multiset{timer};
    }

    /** Fire the next held timer, which expires within a tick of `now`. */
    method FireHeld(timer: Timer, ghost now: nat, ghost k: int, ghost held: seq<Entry>)
      requires Running(k, held) && held != [] && held[0].timer == timer
      requires timer.expires < now + tickDuration
      modifies this`size, this`done, this`fired
      ensures Running(k, held[1..])
      ensures fired == old(fired) + [Firing(timer, now)] && done == old(done) + {timer.id}
    {
      hide Kept, Counted, FiredTimers, FiredIds;
      FireNow(wheels, timer, now, Now(), k, fired);
      DropCounted(wheels, size, held, accepted, Gone());
      FiredOneMore(fired, dropped, timer, now);
      FiredIdsOneMore(fired, Firing(timer, now));
      done := done + {timer.id};
      fired := fired + [Firing(timer, now)];
      size := size - 1;
    }

    /** Put the next held timer into the slot for the full ticks it has left. */
    method PutBack(timer: Timer, from: Level, now: nat, remaining: nat, ghost held: seq<Entry>)
      requires Running(from, held) && held != [] && held[0].timer == timer
      requires seen == now < timer.expires && Lag(startTime, currentTick, now, tickDuration) <= slack
      requires timer.expires < now + Span(from) * tickDuration
      requires 0 < remaining == TicksSince(now, timer.expires, tickDuration)
      modifies this`wheels
      ensures Running(from, held[1..])
      ensures remaining < Span(4) && LevelFor(remaining) <= from
      ensures wheels == Place(old(wheels), LevelFor(remaining), Entry(timer, currentTick + remaining))
    {
      hide Kept, Counted, Begun, Lag, FiredTimers, FiredIds;
      CascadeKeeps(wheels, Now(), from, fired, timer);
      if remaining < Span(4) {
        var level, due := LevelFor(remaining), currentTick + remaining;
        PutBackCounted(wheels, size, held, accepted, Gone(), level, due);
        wheels := Place(wheels, level, Entry(timer, due));
      } else {
        assert false;  // the source's out-of-range discard
      }
    }

    /** What a cascade at `now` makes of a timer: dropped if idle, fired if less than a tick away, else put back. */
    twostate predicate Rescheduled(timer: Timer, now: nat)
      requires tickDuration > 0 && Shaped(old(wheels))
      reads this
    {
      if timer.id in old(done) || timer.id in cancelled then
        dropped == old(dropped) + multiset{timer} && fired == old(fired) && done == old(done) && wheels == old(wheels)
      else if timer.expires <= now || TicksSince(now, timer.expires, tickDuration) == 0 then
        && fired == old(fired) + [Firing(timer, now)] && done == old(done) + {timer.id}
        && dropped == old(dropped) && wheels == old(wheels)
      else
        && dropped == old(dropped) && fired == old(fired) && done == old(done)
        && var remaining := TicksSince(now, timer.expires, tickDuration);
           remaining < Span(4)
           && wheels == Place(old(wheels), LevelFor(remaining), Entry(timer, currentTick + remaining))
    }

    /** One timer of a cascaded slot: dropped, fired, or put into the slot for what is left. */
    method Reschedule(timer: Timer, from: Level, now: nat, ghost held: seq<Entry>)
      requires Running(from, held) && held != [] && held[0].timer == timer
      requires from >= 1 && currentTick % Unit(from) == 0
      requires seen == now && Lag(startTime, currentTick, now, tickDuration) <= slack
      requires timer.expires < now + Span(from) * tickDuration
      modifies this`size, this`dropped, this`done, this`fired, this`wheels
      ensures Running(from, held[1..]) && Shaped(old(wheels)) && Rescheduled(timer, now) && Grew()
      ensures Cascades(old(wheels), wheels, old(fired), fired, from, currentTick, now, tickDuration)
    {
      hide Kept, Counted, Begun, Lag, FiredTimers, FiredIds, Cascades;
      CascadesNothing(wheels, fired, from, currentTick, now, tickDuration);
      if timer.id in done || timer.id in cancelled {
        Drop(timer, from, held);
      } else if timer.expires <= now {
        CascadesFires(wheels, fired, timer, from, currentTick, now, tickDuration);
        FireHeld(timer, now, from, held);
      } else {
        var remaining := TicksSince(now, timer.expires, tickDuration);
        if remaining == 0 {
          DivFloor(timer.expires - now, tickDuration);
          CascadesFires(wheels, fired, timer, from, currentTick, now, tickDuration);
          FireHeld(timer, now, from, held);
        } else {
          PutBack(timer, from, now, remaining, held);
          PlacedBelow(old(wheels), fired, from, currentTick, now, tickDuration, remaining, Entry(timer, currentTick + remaining));
        }
      }
    }

    /** Empty the level's current slot and read the clock. */
    method TakeSlot(l: Level, clock: SteadyClock) returns (taken: seq<Entry>, now: nat)
      requires l >= 1 && Running(l - 1, []) && seen <= clock.time
      modifies this`wheels, this`seen, this`slack, clock
      ensures Running(l, taken) && old(seen) <= seen == clock.time == now
      ensures slack == Max(old(slack), Lag(startTime, currentTick, seen, tickDuration))
      ensures forall e :: e in taken ==> e.timer.expires < now + Span(l) * tickDuration
      ensures taken == old(wheels[l][SlotIndex(l, currentTick)])
      ensures wheels == Replace(old(wheels), l, SlotIndex(l, currentTick), [])
    {
      hide Kept, Counted, Begun, FiredTimers, FiredIds, Idle, SlotIndex, Lag;
      var index := SlotIndex(l, currentTick);
      taken := wheels[l][index];
      now := clock.Now();
      TakeOutKeeps(wheels, Now(), l, fired, now);
      TakeOutCounted(wheels, size, l, index, accepted, Gone());
      wheels := Replace(wheels, l, index, []);
      slack := Max(slack, Lag(startTime, currentTick, now, tickDuration));
      seen := now;
    }

    /** Distribute the timers of the level's current slot over this and the lower levels. */
    method CascadeSlot(l: Level, clock: SteadyClock)
      requires l >= 1 && currentTick % Unit(l) == 0 && Running(l - 1, []) && seen <= clock.time
      modifies this`size, this`dropped, this`done, this`fired, this`wheels, this`seen, this`slack, clock
      ensures Running(l, []) && old(seen) <= seen == clock.time
      ensures slack == Max(old(slack), Lag(startTime, currentTick, seen, tickDuration))
      ensures Grew() && FirstGrew() && wheels[l][SlotIndex(l, currentTick)] == []
      ensures forall j :: |old(fired)| <= j < |fired| ==> fired[j].at == seen && fired[j].timer.expires < seen + tickDuration
      ensures forall k: Level :: l < k ==> wheels[k] == old(wheels[k])
    {
      hide Kept, Counted, Begun, FiredTimers, FiredIds, Cascades, Idle, SlotIndex, Replace;
      var taken, now := TakeSlot(l, clock);
      ghost var emptied := wheels;
      CascadesNothing(wheels, fired, l, currentTick, now, tickDuration);
      var j := 0;
      while j < |taken|
        modifies this`size, this`dropped, this`done, this`fired, this`wheels
        invariant 0 <= j <= |taken|
        invariant Running(l, taken[j..]) && Grew()
        invariant Cascades(emptied, wheels, old(fired), fired, l, currentTick, now, tickDuration)
      {
        ghost var ws, before := wheels, fired;
        Reschedule(taken[j].timer, l, now, taken[j..]);
        CascadesTwice(emptied, ws, wheels, old(fired), before, fired, l, currentTick, now, tickDuration);
        assert taken[j..][1..] == taken[j + 1..];
        j := j + 1;
      }
      assert taken[j..] == [];
      CascadesFromEmptied(old(wheels), wheels, old(fired), fired, l, currentTick, now, tickDuration);
      CascadesNew(emptied, wheels, old(fired), fired, l, currentTick, now, tickDuration);
    }

    /** A level is cascaded exactly at the positive multiples of its unit; at other ticks nothing happens. */
    method CascadeWheel(l: Level, clock: SteadyClock)
      requires l >= 1 && Running(l - 1, []) && seen <= clock.time
      modifies this`size, this`dropped, this`done, this`fired, this`wheels, this`seen, this`slack, clock
      ensures Running(l, []) && tickDuration > 0 && startTime <= old(seen) <= seen <= clock.time
      ensures slack <= Max(old(slack), Lag(startTime, currentTick, seen, tickDuration)) && old(slack) <= slack
      ensures Grew() && FirstGrew()
      ensures forall k: Level :: l < k ==> wheels[k] == old(wheels[k])
      ensures currentTick % Unit(l) == 0 && currentTick > 0 ==>
        wheels[l][SlotIndex(l, currentTick)] == [] && seen == clock.time
      ensures currentTick % Unit(l) != 0 || currentTick == 0 ==> unchanged(this) && unchanged(clock)
    {
      if currentTick % Unit(l) == 0 && currentTick > 0 {
        CascadeSlot(l, clock);
      } else {
        SkipKeeps(wheels, Now(), l);
      }
    }

    /** Fire every timer in the first level's current slot, in order; `at` is the time of the running tick. */
    method ProcessWheel1(ghost at: nat)
      requires Running(LEVELS - 1, []) && startTime + currentTick * tickDuration <= at && pushed <= at
      modifies this`size, this`done, this`fired, this`wheels
      ensures Running(LEVELS - 1, [])
      ensures fired == old(fired) + Firings(old(wheels[0][SlotIndex(0, currentTick)]), at)
      ensures wheels == Replace(old(wheels), 0, SlotIndex(0, currentTick), [])
    {
      hide Kept, Counted, Begun, FiredTimers, FiredIds;
      var index := SlotIndex(0, currentTick);
      ghost var slot, n := wheels[0][index], 0;
      ReplaceSame(wheels, 0, index);
      assert slot[0..] == slot;
      while wheels[0][index] != []
        invariant Running(LEVELS - 1, []) && n <= |slot|
        invariant fired == old(fired) + Firings(slot[..n], at)
        invariant wheels == Replace(old(wheels), 0, index, slot[n..])
        decreases |slot| - n
      {
        FireFront(index, at);
        ReplaceTwice(old(wheels), 0, index, slot[n..], slot[n + 1..]);
        assert slot[n..][1..] == slot[n + 1..];
        assert Firings(slot[..n + 1], at) == Firings(slot[..n], at) + [Firing(slot[n].timer, at)];
        n := n + 1;
      }
      assert slot[..n] == slot;
    }

    method FireFront(index: nat, ghost at: nat)
      requires Running(LEVELS - 1, []) && startTime + currentTick * tickDuration <= at && pushed <= at
      requires index == SlotIndex(0, currentTick) && wheels[0][index] != []
      modifies this`size, this`done, this`fired, this`wheels
      ensures Running(LEVELS - 1, []) && size == old(size) - 1
      ensures fired == old(fired) + [Firing(old(wheels[0][index][0].timer), at)]
      ensures wheels == Replace(old(wheels), 0, index, old(wheels[0][index][1..]))
    {
      hide Kept, Counted, Begun, FiredTimers, FiredIds;
      var timer := wheels[0][index][0].timer;
      FireFrontKeeps(wheels, Now(), fired, at);
      FireCounted(wheels, size, 0, index, accepted, Gone());
      FiredOneMore(fired, dropped, timer, at);
      FiredIdsOneMore(fired, Firing(timer, at));
      done := done + {timer.id};
      fired := fired + [Firing(timer, at)];
      wheels := Replace(wheels, 0, index, wheels[0][index][1..]);
      size := size - 1;
    }

    /** Cascade what is due for the current tick, from the second level up. */
    method CascadeAll(clock: SteadyClock)
      requires Running(0, []) && seen <= clock.time
      modifies this`size, this`dropped, this`done, this`fired, this`wheels, this`seen, this`slack, clock
      ensures Running(LEVELS - 1, []) && old(seen) <= seen <= clock.time && Grew() && FirstGrew()
      ensures old(slack) <= slack <= Max(old(slack), Lag(startTime, currentTick, seen, tickDuration))
      ensures CascadeFree(currentTick, currentTick) ==> seen == old(seen)
    {
      hide Manager.Running, Lag;
      ghost var quiet := CascadeFree(currentTick, currentTick);
      var l: int := 1;
      assert seen == old(seen);
      Started();
      while l < LEVELS
        invariant 1 <= l <= LEVELS && Running(l - 1, [])
        invariant old(seen) <= seen <= clock.time && Grew() && FirstGrew()
        invariant old(slack) <= slack <= Max(old(slack), Lag(startTime, currentTick, seen, tickDuration))
        invariant quiet ==> seen == old(seen)
      {
        if quiet { NoVisit(currentTick, currentTick, currentTick, l); }
        ghost var before := seen;
        CascadeWheel(l, clock);
        LagMonotone(startTime, currentTick, currentTick, before, seen, tickDuration);
        l := l + 1;
      }
    }

    /** A running tick knows its times and has its wheels in shape. */
    lemma Started()
      requires Running(0, [])
      ensures tickDuration > 0 && startTime <= seen && Shaped(wheels)
    {
    }

    /** Process one tick: the current first-level slot is fired as a whole. */
    method OneTick(clock: SteadyClock, ghost at: nat)
      requires Running(0, []) && seen <= clock.time && startTime + currentTick * tickDuration <= at && pushed <= at
      modifies this`size, this`dropped, this`done, this`fired, this`wheels, this`seen, this`slack,
               this`currentTick, clock
      ensures Shaped(wheels) && Kept(wheels, Now(), 0, fired) && Counted(wheels, size, [], accepted, Gone())
      ensures Idle() && currentTick == old(currentTick) + 1 && old(seen) <= seen <= clock.time
      ensures old(slack) <= slack <= Max(old(slack), Lag(startTime, old(currentTick), seen, tickDuration))
      ensures CascadeFree(old(currentTick), old(currentTick)) ==> seen == old(seen)
      ensures Grew() && Shaped(old(wheels)) && Fires(old(wheels), wheels, fired, old(currentTick), at)
    {
      hide Kept, Counted, Begun, FiredTimers, FiredIds;
      CascadeAll(clock);
      label Cascaded:
      ProcessWheel1(at);
      forall e | e in old(wheels[0][SlotIndex(0, currentTick)]) ensures Firing(e.timer, at) in fired {
        FiringOf(old@Cascaded(wheels[0][SlotIndex(0, currentTick)]), e, at);
      }
      Advance();
    }

    method Advance()
      requires Running(LEVELS - 1, []) && wheels[0][SlotIndex(0, currentTick)] == []
      modifies this`currentTick
      ensures Kept(wheels, Now(), 0, fired) && currentTick == old(currentTick) + 1
    {
      ReplaceSame(wheels, 0, SlotIndex(0, currentTick));
      FireKeeps(wheels, Now());
      currentTick := currentTick + 1;
    }

    /** Restart the ticks of an emptied wheel at the present. */
    method Reset(clock: SteadyClock)
      requires Steady() && size == 0 && seen <= clock.time
      modifies this`seen, this`startTime, this`currentTick, clock
      ensures Steady() && old(clock.time) <= clock.time == seen == startTime && currentTick == 0
    {
      var now := clock.Now();
      Observe(now);
    }

    /** Every timer still stored expires later than two ticks before `at`. */
    ghost predicate NothingLate(at: nat)
      requires Shaped(wheels)
      reads this
    {
      forall l: Level, i, e :: 0 <= i < Slots(l) && e in wheels[l][i] ==> at < e.timer.expires + 2 * tickDuration
    }

    /** Process the ticks up to `target`, or until no timer is left. */
    method RunTicks(clock: SteadyClock, target: nat, ghost at: nat)
      requires Steady() && seen == at <= clock.time && target == TicksSince(startTime, at, tickDuration)
      requires currentTick <= target
      modifies this`seen, this`currentTick, this`wheels, this`size, this`dropped,
               this`done, this`fired, this`slack, clock
      ensures Steady() && old(seen) <= seen <= clock.time && (size == 0 || target < currentTick)
      ensures old(slack) <= slack <= Max(old(slack), Lag(startTime, old(currentTick), seen, tickDuration))
      ensures Grew() && Swept(old(wheels), wheels, fired, old(currentTick), target + 1, at)
      ensures CascadeFree(old(currentTick), target) ==> seen == at
      ensures size > 0 ==> currentTick == target + 1
    {
      hide Kept, Counted, Lag, FiredTimers, FiredIds, Swept, Fires, Begun, Idle, Shaped, CascadeFree;
      NothingSwept(wheels, fired, currentTick, at);
      while currentTick <= target && size > 0
        invariant Shaped(wheels) && Kept(wheels, Now(), 0, fired) && Counted(wheels, size, [], accepted, Gone())
        invariant Idle() && pushed <= at <= seen <= clock.time && old(currentTick) <= currentTick <= target + 1
        invariant old(slack) <= slack <= Max(old(slack), Lag(startTime, old(currentTick), seen, tickDuration))
        invariant Grew() && Swept(old(wheels), wheels, fired, old(currentTick), currentTick, at)
        invariant CascadeFree(old(currentTick), target) ==> seen == at
        decreases target + 1 - currentTick
      {
        ghost var tick, seen0, mid, before := currentTick, seen, wheels, fired;
        TickBegun(Now(), at);
        QuietTick(old(currentTick), currentTick, target);
        OneTick(clock, at);
        SweptOneMore(old(wheels), mid, wheels, before, fired, old(currentTick), tick, at);
        LagMonotone(startTime, old(currentTick), tick, seen, seen, tickDuration);
        LagMonotone(startTime, old(currentTick), old(currentTick), seen0, seen, tickDuration);
      }
      if size == 0 {
        NothingCounted(wheels, size, accepted, Gone());
        SweptToTheEnd(old(wheels), wheels, fired, old(currentTick), currentTick, target + 1, at);
      }
      ReachedAfter(Now(), at);
    }

    /** The rest of a tick that has ticks to process; `end` is the last time a cascade looked at the clock. */
    method CatchUp(clock: SteadyClock, target: nat, ghost at: nat) returns (ghost end: nat)
      requires Steady() && seen == at <= clock.time && target == TicksSince(startTime, at, tickDuration)
      requires currentTick <= target
      modifies this`seen, this`startTime, this`currentTick, this`wheels, this`size, this`dropped,
               this`done, this`fired, this`slack, clock
      ensures Steady() && at <= end <= seen <= clock.time && NothingLate(at) && Grew()
      ensures Swept(old(wheels), wheels, fired, old(currentTick), target + 1, at)
      ensures old(slack) <= slack <= Max(old(slack), Lag(old(startTime), old(currentTick), end, tickDuration))
      ensures CascadeFree(old(currentTick), target) ==> end == at
      ensures size > 0 ==> currentTick == target + 1 && startTime == old(startTime) && seen == end
      ensures size == 0 ==> currentTick == 0 && startTime == seen
    {
      hide Scheduled, NotEarly, Counted, Lag, FiredTimers, FiredIds, Swept;
      RunTicks(clock, target, at);
      end := seen;
      if size == 0 {
        Reset(clock);
        NoneLate(at);
      } else {
        AllInTime(wheels, Now(), target, at);
      }
    }

    /**
     A tick at `at`: nothing stored is two ticks late, the first-level slots from the wheel's tick up to
     the present are fired whole and no other, and the call is recorded with the ticks it caught up with.
     */
    method TickAt(clock: SteadyClock, at: nat) returns (ghost end: nat)
      requires Valid() && seen <= at == clock.time
      modifies this`seen, this`startTime, this`currentTick, this`wheels, this`size, this`dropped,
               this`done, this`fired, this`slack, this`calls, clock
      ensures Valid() && at <= end <= seen <= clock.time && NothingLate(at) && Grew()
      ensures TickedAt(at, end)
    {
      hide Scheduled, NotEarly, Counted, Lag, FiredTimers, FiredIds, Swept, AllInTurn, MostTicks, CascadeFree, Idle, TicksSince;
      SeenLater(wheels, Now(), at, fired);
      seen := at;
      end := at;
      var target := TicksSince(startTime, at, tickDuration);
      if target <= currentTick {
        AllInTime(wheels, Now(), target, at);
        Record(TickCall(0), old(slack));
      } else {
        end := CatchUp(clock, target, at);
        LagIs(old(startTime), old(currentTick), at, end, tickDuration);
        Record(TickCall(Lag(old(startTime), old(currentTick), end, tickDuration)), old(slack));
      }
    }

    /** A tick at `at` that finds the present tick processed already changes nothing. */
    twostate predicate Waits(at: nat, end: nat)
      reads this
    {
      && wheels == old(wheels) && size == old(size) && fired == old(fired) && dropped == old(dropped)
      && startTime == old(startTime) && currentTick == old(currentTick)
      && end == at == seen && calls == old(calls) + [TickCall(0)]
    }

    /**
     A tick at `at` waits as long as the present tick is processed already.  Otherwise it processes every
     tick up to and including the present one, and is recorded with the ticks from its start to its end,
     which without a cascade is `at`; an emptied wheel restarts its ticks.
     */
    twostate predicate TickedAt(at: nat, end: nat)
      reads this
    {
      && Shaped(old(wheels)) && Shaped(wheels)
      && tickDuration > 0 && old(startTime) <= at <= end
      && var present := TicksSince(old(startTime), at, tickDuration);
         if present <= old(currentTick) then Waits(at, end)
         else
           && Swept(old(wheels), wheels, fired, old(currentTick), present + 1, at)
           && Noted(old(calls), calls, TicksSince(old(startTime), end, tickDuration) - old(currentTick) + 1)
           && (CascadeFree(old(currentTick), present) ==> end == at)
           && (size > 0 ==> currentTick == present + 1 && startTime == old(startTime) && seen == end)
           && (size == 0 ==> currentTick == 0 && startTime == seen)
    }

    /** Notes a tick whose slack is accounted for. */
    ghost method Record(call: Call, before: nat)
      requires Steady() && call.TickCall? && aligned == AllInTurn(calls, tickDuration)
      requires before <= MostTicks(calls) && slack <= Max(before, call.ticks)
      modifies this`calls
      ensures Valid() && calls == old(calls) + [call]
    {
      InTurnOneMore(calls, call, tickDuration);
      MostTicksOneMore(calls, call);
      calls := calls + [call];
    }

    method Tick(clock: SteadyClock) returns (at: nat, ghost end: nat)
      requires Valid() && seen <= clock.time
      modifies this`seen, this`startTime, this`currentTick, this`wheels, this`size, this`dropped,
               this`done, this`fired, this`slack, this`calls, clock
      ensures Valid() && old(seen) <= seen <= clock.time && old(clock.time) <= at <= clock.time
      ensures NothingLate(at) && Grew()
      ensures old(size) == 0 ==> unchanged(this) && unchanged(clock)
      ensures old(size) > 0 ==> TickedAt(at, end)
    {
      hide Kept, Counted, FiredTimers, FiredIds, Swept, Lag;
      at, end := clock.time, clock.time;
      if size == 0 {
        NoneLate(at);
      } else {
        at := clock.Now();
        end := TickAt(clock, at);
      }
    }

    /** As long as a timer is stored, the wheel is not empty. */
    lemma StoredCounts(l: Level, i: nat, e: Entry)
      requires Valid() && i < Slots(l) && e in wheels[l][i]
      ensures size > 0
    {
      if size == 0 {
        NothingCounted(wheels, size, accepted, Gone());
        EmptyMeansNoEntries(wheels, l, i);
      }
    }

    lemma NoneLate(at: nat)
      requires Steady() && size == 0
      ensures NothingLate(at)
    {
      NothingStored(wheels, tickDuration, at);
    }
  }

  /**
   A run in which a push out of turn fires early: with a timer stored, the wheel is left 10 ticks behind,
   a timer 250 ticks away is pushed, and the next tick, which catches up with 11 ticks, fires it at once.
   */
  method LaggingPushFiresEarly(clock: SteadyClock) returns (m: Manager, timer: Timer, at: nat)
    modifies clock
    ensures fresh(m) && m.Valid() && m.tickDuration == 1 && !AllInTurn(m.calls, 1)
    ensures Firing(timer, at) in m.fired && timer.expires == at + 250
    ensures forall c :: c in m.calls && c.TickCall? ==> c.ticks == 11
  {
    hide Manager.Valid, Swept, WithinTurn, Inserted, DelayTicks, CascadeFree, TicksSince, AllInTurn;
    m := new Manager(1, clock);
    var start := clock.time;
    timer, at := Timer(1, start + 260), start + 10;
    StayingTimer(start);
    var _ := m.PushAt(Timer(0, start + 1000), start);
    LaggingTimer(m.wheels, timer, start);
    var _ := m.PushAt(timer, at);
    ghost var before := m.wheels;
    OutOfTurn(m.calls, m.calls[1]);
    clock.time := at;
    ghost var end := m.TickAt(clock, at);
    SweptFires(before, m.wheels, m.fired, 0, 11, at, 4, Entry(timer, 260));
    OutOfTurn(m.calls, m.calls[1]);
  }

  lemma StayingTimer(start: nat)
    ensures DelayTicks(Timer(0, start + 1000), start, 1) == 1000
  {
  }

  lemma OutOfTurn(calls: seq<Call>, c: Call)
    requires c in calls && c.PushCall? && c.start <= c.now && !WithinTurn(c.timer, c.start, c.tick, c.now, 1)
    ensures !AllInTurn(calls, 1)
  {
    assert !InTurn(c, 1);
  }

  /** The numbers of that run: due at tick 260, in slot 4, which ticks 0 to 10 visit. */
  lemma LaggingTimer(ws: Wheels, timer: Timer, start: nat)
    requires Shaped(ws) && timer.expires == start + 260
    ensures DelayTicks(timer, start + 10, 1) == 250 && !WithinTurn(timer, start, 0, start + 10, 1)
    ensures Entry(timer, 260) in Inserted(ws, timer, start, start + 10, 1)[0][4]
    ensures Visited(0, 11, 4)
    ensures TicksSince(start, start + 10, 1) == 10 && CascadeFree(0, 10)
  {
    assert PushedEntry(timer, start, start + 10, 1) == Entry(timer, 260);
    FirstLevelVisit(260);
    FirstLevelVisit(4);
    assert 0 <= 4 < 11 && SlotIndex(0, 4) == 4;
  }

  /**
   A run in which a timer that expired almost two ticks ago is still stored after a tick: ticks take 10,
   a timer due in 11 is put two ticks ahead, a tick after 10 leaves it, and one after 29 finds the
   present tick processed.
   */
  method AlmostTwoTicksLate(clock: SteadyClock) returns (m: Manager, timer: Timer, at: nat)
    modifies clock
    ensures fresh(m) && m.Valid() && m.tickDuration == 10 && m.seen == at && m.accepted == multiset{timer}
    ensures Shaped(m.wheels) && Entry(timer, 2) in m.wheels[0][2] && at == timer.expires + 18
  {
    hide Manager.Valid, Swept, WithinTurn, Inserted, DelayTicks, CascadeFree, TicksSince, AllInTurn;
    m := new Manager(10, clock);
    var start := clock.time;
    timer, at := Timer(0, start + 11), start + 29;
    TwoTicksAhead(m.wheels, timer, start);
    var _ := m.PushAt(timer, start);
    ghost var before := m.wheels;
    clock.time := start + 10;
    ghost var end := m.TickAt(clock, start + 10);
    SweptLeaves(before, m.wheels, m.fired, 0, 2, start + 10, 2, Entry(timer, 2));
    m.StoredCounts(0, 2, Entry(timer, 2));
    clock.time := at;
    end := m.TickAt(clock, at);
  }

  /** The numbers of that run: due at tick 2, which neither tick 0 nor tick 1 visits. */
  lemma TwoTicksAhead(ws: Wheels, timer: Timer, start: nat)
    requires Shaped(ws) && timer.expires == start + 11
    ensures DelayTicks(timer, start, 10) == 2
    ensures Entry(timer, 2) in Inserted(ws, timer, start, start, 10)[0][2]
    ensures TicksSince(start, start + 10, 10) == 1 && TicksSince(start, start + 29, 10) == 2
    ensures CascadeFree(0, 1) && !Visited(0, 2, 2)
  {
    assert PushedEntry(timer, start, start, 10) == Entry(timer, 2);
    FirstLevelVisit(2);
    FirstLevelVisit(0);
    FirstLevelVisit(1);
  }
}
