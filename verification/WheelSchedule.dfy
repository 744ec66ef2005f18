/** What every stored entry promises about time, and how placing, clearing and ticking keep it. */
module WheelSchedule {
  import opened WheelMath
  import opened WheelStore

  /**
   The wheel's notion of time.  `seen` is the latest clock reading and `pushed` the time of the latest
   push that stored a timer.  `slack` is the largest lag, in ticks, at which a cascade ever ran, and
   `aligned` says that every push to the first level fell within one turn of that level.
   */
  datatype Epoch = Epoch(d: nat, start: nat, tick: nat, seen: nat, slack: nat, aligned: bool, pushed: nat)

  /** A first-level entry within one turn of the tick, due no earlier than the slack allows. */
  ghost predicate Regular(e: Entry, ep: Epoch) {
    e.due < ep.tick + Span(0) && e.timer.expires < ep.start + (e.due + ep.slack + 1) * ep.d
  }

  ghost predicate Punctual(l: Level, e: Entry, ep: Epoch) {
    && (l > 0 ==> 0 < Visit(l, e.due))
    && ep.start + e.due * ep.d < e.timer.expires + ep.d
    && e.timer.expires < ep.seen + Span(l) * ep.d
    && (l == 0 ==> Regular(e, ep) || (!ep.aligned && e.timer.expires < ep.pushed + Span(0) * ep.d))
  }

  /** Levels 1 to `k` have already been cascaded at the current tick; nothing was passed over. */
  ghost predicate Ahead(l: Level, e: Entry, tick: nat, k: int) {
    (if 1 <= l <= k then tick + 1 else tick) <= Visit(l, e.due)
  }

  ghost predicate Scheduled(ws: Wheels, ep: Epoch, k: int)
    requires Shaped(ws)
  {
    forall l: Level, i, e :: 0 <= i < Slots(l) && e in ws[l][i] ==>
      SlotIndex(l, e.due) == i && Punctual(l, e, ep) && Ahead(l, e, ep.tick, k)
  }

  lemma EntryOf(ws: Wheels, ep: Epoch, k: int, l: Level, i: nat, e: Entry)
    requires Shaped(ws) && Scheduled(ws, ep, k) && i < Slots(l) && e in ws[l][i]
    ensures SlotIndex(l, e.due) == i && Punctual(l, e, ep) && Ahead(l, e, ep.tick, k)
  {
  }

  lemma PlaceKeeps(ws: Wheels, ep: Epoch, k: int, l: Level, e: Entry)
    requires Shaped(ws) && Scheduled(ws, ep, k)
    requires Punctual(l, e, ep) && Ahead(l, e, ep.tick, k)
    ensures Scheduled(Place(ws, l, e), ep, k)
  {
    var at := SlotIndex(l, e.due);
    var ws' := Place(ws, l, e);
    forall l': Level, i, e': Entry | 0 <= i < Slots(l') && e' in ws'[l'][i]
      ensures SlotIndex(l', e'.due) == i && Punctual(l', e', ep) && Ahead(l', e', ep.tick, k)
    {
      if l' == l && i == at && e' == e {
      } else {
        assert e' in ws[l'][i];
      }
    }
  }

  /** Emptying the slot visited now leaves only later visits on that level. */
  lemma ClearKeeps(ws: Wheels, ep: Epoch, l: Level)
    requires Shaped(ws) && l >= 1 && Scheduled(ws, ep, l - 1)
    ensures Scheduled(Replace(ws, l, SlotIndex(l, ep.tick), []), ep, l)
  {
    var ws' := Replace(ws, l, SlotIndex(l, ep.tick), []);
    forall l': Level, i, e: Entry | 0 <= i < Slots(l') && e in ws'[l'][i]
      ensures SlotIndex(l', e.due) == i && Punctual(l', e, ep) && Ahead(l', e, ep.tick, l)
    {
      assert e in ws[l'][i];
      if l' == l && Visit(l, e.due) == ep.tick { VisitFindsSlot(l, e.due); }
    }
  }

  /** At a tick that is not a visit tick of the level there is nothing to empty. */
  lemma SkipKeeps(ws: Wheels, ep: Epoch, l: Level)
    requires Shaped(ws) && l >= 1 && Scheduled(ws, ep, l - 1)
    requires ep.tick % Unit(l) != 0 || ep.tick == 0
    ensures Scheduled(ws, ep, l)
  {
    forall l': Level, i, e: Entry | 0 <= i < Slots(l') && e in ws[l'][i]
      ensures Ahead(l', e, ep.tick, l)
    {
      if l' == l { VisitBeforeDue(l, e.due); }
    }
  }

  /** Firing the first level's slot lets the tick advance. */
  lemma FireKeeps(ws: Wheels, ep: Epoch)
    requires Shaped(ws) && Scheduled(ws, ep, LEVELS - 1)
    ensures Scheduled(Replace(ws, 0, SlotIndex(0, ep.tick), []), ep.(tick := ep.tick + 1), 0)
  {
    hide Visit, SlotIndex, Punctual, Ahead;
    var ws', ep' := Replace(ws, 0, SlotIndex(0, ep.tick), []), ep.(tick := ep.tick + 1);
    forall l: Level, i, e: Entry | 0 <= i < Slots(l) && e in ws'[l][i]
      ensures SlotIndex(l, e.due) == i && Punctual(l, e, ep') && Ahead(l, e, ep'.tick, 0)
    {
      EntryOf(ws, ep, LEVELS - 1, l, i, e);
      EntryOutlivesTick(l, e, ep);
    }
    assert Scheduled(ws', ep', 0);
  }

  lemma EntryOutlivesTick(l: Level, e: Entry, ep: Epoch)
    requires Punctual(l, e, ep) && Ahead(l, e, ep.tick, LEVELS - 1)
    requires l == 0 ==> SlotIndex(0, e.due) != SlotIndex(0, ep.tick)
    ensures Punctual(l, e, ep.(tick := ep.tick + 1)) && Ahead(l, e, ep.tick + 1, 0)
  {
    hide Visit, SlotIndex;
    FirstLevelVisit(e.due);
  }

  /** Time passing, more lag or a lost alignment weaken nothing. */
  lemma LaterKeeps(ws: Wheels, ep: Epoch, ep': Epoch, k: int)
    requires Shaped(ws) && Scheduled(ws, ep, k)
    requires ep' == ep.(seen := ep'.seen, slack := ep'.slack, aligned := ep'.aligned, pushed := ep'.pushed)
    requires ep.seen <= ep'.seen && ep.slack <= ep'.slack && (ep'.aligned ==> ep.aligned) && ep.pushed <= ep'.pushed
    ensures Scheduled(ws, ep', k)
  {
    hide Visit, SlotIndex;
    forall l: Level, i, e: Entry | 0 <= i < Slots(l) && e in ws[l][i] ensures Punctual(l, e, ep') {
      assert Punctual(l, e, ep);
      MulMonotone(e.due + ep.slack + 1, e.due + ep'.slack + 1, ep.d);
    }
  }

  /** Ticks until the timer expires, rounded up, when it is pushed at `now`. */
  function DelayTicks(timer: Timer, now: nat, d: nat): nat
    requires d > 0 && now < timer.expires
  {
    CeilDiv(timer.expires - now, d)
  }

  /** The entry a push makes: due the delay after the tick in progress. */
  function PushedEntry(timer: Timer, start: nat, now: nat, d: nat): Entry
    requires d > 0 && start <= now < timer.expires
  {
    Entry(timer, TicksSince(start, now, d) + DelayTicks(timer, now, d))
  }

  function Inserted(ws: Wheels, timer: Timer, start: nat, now: nat, d: nat): (ws': Wheels)
    requires d > 0 && start <= now < timer.expires && Shaped(ws)
    requires DelayTicks(timer, now, d) < Span(4)
    ensures Shaped(ws')
  {
    Place(ws, LevelFor(DelayTicks(timer, now, d)), PushedEntry(timer, start, now, d))
  }

  /** The epoch after a push at `ep.seen` that stores the timer. */
  function AfterPush(timer: Timer, ep: Epoch): Epoch
    requires Reached(ep) && ep.seen < timer.expires
  {
    ep.(aligned := ep.aligned && WithinTurn(timer, ep.start, ep.tick, ep.seen, ep.d), pushed := ep.seen)
  }

  /** A push yields a punctual entry that is still ahead of the current tick. */
  lemma PushPunctual(timer: Timer, ep: Epoch)
    requires Reached(ep) && ep.seen < timer.expires && DelayTicks(timer, ep.seen, ep.d) < Span(4)
    ensures var l, e := LevelFor(DelayTicks(timer, ep.seen, ep.d)),
                        PushedEntry(timer, ep.start, ep.seen, ep.d);
            Ahead(l, e, ep.tick, 0) && Punctual(l, e, AfterPush(timer, ep))
  {
    hide Visit;
    var delay := DelayTicks(timer, ep.seen, ep.d);
    var l := LevelFor(delay);
    var due := TicksSince(ep.start, ep.seen, ep.d) + delay;
    PushWithinOneTick(ep.start, ep.seen, timer.expires, ep.d);
    VisitBeforeDue(l, due);
    FirstLevelVisit(due);
    StrictlyWithin(delay, Span(l), ep.d);
    MulMonotone(due + 1, due + ep.slack + 1, ep.d);
    Distribute(due, 1, ep.d);
  }

  lemma StrictlyWithin(a: nat, b: nat, d: nat)
    requires a < b && d > 0
    ensures a * d < b * d
  {
  }

  /** A cascade at `tick` yields a punctual entry strictly ahead of the tick, on no higher level. */
  lemma CascadePunctual(timer: Timer, ep: Epoch, from: Level, k: int)
    requires ep.d > 0 && ep.start + ep.tick * ep.d <= ep.seen < timer.expires
    requires timer.expires < ep.seen + Span(from) * ep.d
    requires Lag(ep.start, ep.tick, ep.seen, ep.d) <= ep.slack
    requires (timer.expires - ep.seen) / ep.d > 0
    ensures (timer.expires - ep.seen) / ep.d < Span(from) <= Span(4)
    ensures var rem := (timer.expires - ep.seen) / ep.d;
            var l, e := LevelFor(rem), Entry(timer, ep.tick + rem);
            l <= from && Ahead(l, e, ep.tick, k) && Punctual(l, e, ep)
  {
    var rem := (timer.expires - ep.seen) / ep.d;
    DivFloor(timer.expires - ep.seen, ep.d);
    if rem >= Span(from) { MulMonotone(Span(from), rem, ep.d); }
    var l := LevelFor(rem);
    var due := ep.tick + rem;
    CascadeNotLate(ep.start, ep.tick, ep.seen, timer.expires, ep.d);
    CascadeNotEarly(ep.start, ep.tick, ep.seen, timer.expires, ep.d);
    MulMonotone(due + Lag(ep.start, ep.tick, ep.seen, ep.d) + 1, due + ep.slack + 1, ep.d);
    VisitBeforeDue(l, due);
    MulMonotone(rem + 1, Span(l), ep.d);
    Distribute(rem, 1, ep.d);
  }

  datatype Firing = Firing(timer: Timer, at: nat)

  /** The timers whose handler was called. */
  ghost function FiredTimers(fired: seq<Firing>): multiset<Timer> {
    multiset(seq(|fired|, i requires 0 <= i < |fired| => fired[i].timer))
  }

  lemma FiredOneMore(fired: seq<Firing>, dropped: multiset<Timer>, timer: Timer, at: nat)
    ensures FiredTimers(fired + [Firing(timer, at)]) + dropped == FiredTimers(fired) + dropped + multiset{timer}
  {
    var timers := seq(|fired|, i requires 0 <= i < |fired| => fired[i].timer);
    var fired' := fired + [Firing(timer, at)];
    assert seq(|fired'|, i requires 0 <= i < |fired'| => fired'[i].timer) == timers + [timer];
  }

  /** At most `slack` full ticks before its expiry, or less than a turn before it after a push out of turn. */
  ghost predicate InBound(f: Firing, ep: Epoch) {
    || f.timer.expires < f.at + (ep.slack + 1) * ep.d
    || (!ep.aligned && f.timer.expires < f.at + Span(0) * ep.d)
  }

  ghost predicate NotEarly(fired: seq<Firing>, ep: Epoch) {
    forall f :: f in fired ==> InBound(f, ep)
  }

  lemma LaterNotEarly(fired: seq<Firing>, ep: Epoch, ep': Epoch)
    requires NotEarly(fired, ep) && ep.d == ep'.d && ep.slack <= ep'.slack && (ep'.aligned ==> ep.aligned)
    ensures NotEarly(fired, ep')
  {
    MulMonotone(ep.slack + 1, ep'.slack + 1, ep.d);
    forall f | f in fired ensures InBound(f, ep') { assert InBound(f, ep); }
  }

  /** A timer in the first level's current slot is within its bound when the tick has begun. */
  lemma SlotFiresInTime(e: Entry, ep: Epoch, at: nat)
    requires Punctual(0, e, ep) && Ahead(0, e, ep.tick, LEVELS - 1)
    requires SlotIndex(0, e.due) == SlotIndex(0, ep.tick)
    requires ep.start + ep.tick * ep.d <= at && ep.pushed <= at
    ensures InBound(Firing(e.timer, at), ep)
  {
    hide Visit, SlotIndex;
    FirstLevelVisit(e.due);
    FirstLevelVisit(ep.tick);
    if Regular(e, ep) {
      SameSlotWithinTurn(ep.tick, e.due);
      Distribute(ep.tick, ep.slack + 1, ep.d);
    }
  }

  lemma SameSlotWithinTurn(tick: nat, due: nat)
    requires tick <= due < tick + 256 && tick % 256 == due % 256
    ensures due == tick
  {
  }

  /** The lateness bound, from the tick number the wheel has reached. */
  lemma StoredNotLate(l: Level, e: Entry, ep: Epoch, target: nat, now: nat)
    requires ep.d > 0 && ep.start <= now && target == TicksSince(ep.start, now, ep.d)
    requires Punctual(l, e, ep) && Ahead(l, e, ep.tick, 0) && target <= ep.tick
    ensures now < e.timer.expires + 2 * ep.d
  {
    VisitBeforeDue(l, e.due);
    DivFloor(now - ep.start, ep.d);
    MulMonotone(target, e.due, ep.d);
  }

  // ---- the manager's invariant, on values ------------------------------------------------------

  /** The wheel has not run ahead of the clock by more than the tick after the latest one begun. */
  ghost predicate Reached(ep: Epoch) {
    ep.d > 0 && ep.start <= ep.seen && ep.tick <= TicksSince(ep.start, ep.seen, ep.d) + 1
  }

  ghost predicate Kept(ws: Wheels, ep: Epoch, k: int, fired: seq<Firing>) {
    ep.d > 0 && Shaped(ws) && Scheduled(ws, ep, k) && NotEarly(fired, ep)
  }

  /** Every accepted timer occurrence is stored, held by the running cascade, or gone. */
  ghost predicate Counted(ws: Wheels, size: nat, held: seq<Entry>,
                          accepted: multiset<Timer>, gone: multiset<Timer>) {
    && size == |AllTimers(ws)| + |SlotTimers(held)|
    && accepted == AllTimers(ws) + SlotTimers(held) + gone
  }

  lemma SeenLater(ws: Wheels, ep: Epoch, now: nat, fired: seq<Firing>)
    requires Kept(ws, ep, 0, fired) && Reached(ep) && ep.seen <= now
    ensures Kept(ws, ep.(seen := now), 0, fired) && Reached(ep.(seen := now))
  {
    LaterKeeps(ws, ep, ep.(seen := now), 0);
    LaterNotEarly(fired, ep, ep.(seen := now));
    DivMonotone(ep.seen - ep.start, now - ep.start, ep.d);
  }

  lemma EmptyKept(ws: Wheels, ep: Epoch, ep': Epoch, fired: seq<Firing>)
    requires Kept(ws, ep, 0, fired) && |AllTimers(ws)| == 0
    requires ep'.d == ep.d && ep'.slack == ep.slack && ep'.aligned == ep.aligned
    ensures Kept(ws, ep', 0, fired)
  {
    LaterNotEarly(fired, ep, ep');
    forall l: Level, i | 0 <= i < Slots(l) ensures ws[l][i] == [] {
      EmptyMeansNoEntries(ws, l, i);
    }
  }

  /** Whether a push, if it goes to the first level, stays within one turn of it. */
  predicate WithinTurn(timer: Timer, start: nat, tick: nat, now: nat, d: nat)
    requires d > 0 && start <= now
  {
    now < timer.expires && DelayTicks(timer, now, d) < Span(0) ==>
      PushedEntry(timer, start, now, d).due < tick + Span(0)
  }

  lemma InsertKeeps(ws: Wheels, ep: Epoch, timer: Timer, fired: seq<Firing>)
    requires Kept(ws, ep, 0, fired) && Reached(ep) && ep.pushed <= ep.seen < timer.expires
    requires DelayTicks(timer, ep.seen, ep.d) < Span(4)
    ensures Kept(Inserted(ws, timer, ep.start, ep.seen, ep.d), AfterPush(timer, ep), 0, fired)
  {
    hide Punctual, Ahead, NotEarly, InBound;
    PushPunctual(timer, ep);
    LaterKeeps(ws, ep, AfterPush(timer, ep), 0);
    LaterNotEarly(fired, ep, AfterPush(timer, ep));
    PlaceKeeps(ws, AfterPush(timer, ep), 0, LevelFor(DelayTicks(timer, ep.seen, ep.d)),
               PushedEntry(timer, ep.start, ep.seen, ep.d));
  }

  lemma PlaceCounted(ws: Wheels, size: nat, l: Level, e: Entry,
                     accepted: multiset<Timer>, gone: multiset<Timer>)
    requires Shaped(ws) && Counted(ws, size, [], accepted, gone)
    ensures Counted(Place(ws, l, e), size + 1, [], accepted + multiset{e.timer}, gone)
  {
    PlaceCounts(ws, l, e);
  }

  lemma FireNow(ws: Wheels, timer: Timer, at: nat, ep: Epoch, k: int, fired: seq<Firing>)
    requires Kept(ws, ep, k, fired) && timer.expires < at + ep.d
    ensures Kept(ws, ep, k, fired + [Firing(timer, at)])
  {
    MulMonotone(1, ep.slack + 1, ep.d);
  }

  lemma FireAcceptedCounted(ws: Wheels, size: nat, accepted: multiset<Timer>, gone: multiset<Timer>, timer: Timer)
    requires Counted(ws, size, [], accepted, gone)
    ensures Counted(ws, size, [], accepted + multiset{timer}, gone + multiset{timer})
  {
  }

  /** Slot `i` of the first level is looked at by one of the ticks from `from` up to, not including, `upto`. */
  ghost predicate Visited(from: nat, upto: nat, i: nat) {
    exists t: nat :: from <= t < upto && SlotIndex(0, t) == i
  }

  lemma VisitedOneMore(from: nat, upto: nat, i: nat)
    requires from <= upto
    ensures Visited(from, upto + 1, i) <==> Visited(from, upto, i) || i == SlotIndex(0, upto)
  {
    hide SlotIndex;
    if Visited(from, upto, i) {
      var t: nat :| from <= t < upto && SlotIndex(0, t) == i;
      assert from <= t < upto + 1 && SlotIndex(0, t) == i;
    }
    if i == SlotIndex(0, upto) { assert from <= upto < upto + 1 && SlotIndex(0, upto) == i; }
  }

  /**
   The slot of a first-level entry is looked at before the entry is due exactly when the entry lies a
   turn or more ahead of the tick, which a push makes it when it finds the wheel lagging.
   */
  lemma VisitedEarlyIffOutOfTurn(tick: nat, due: nat)
    requires tick <= due
    ensures Visited(tick, due, SlotIndex(0, due)) <==> tick + Span(0) <= due
  {
    hide SlotIndex;
    FirstLevelVisit(due);
    if Visited(tick, due, SlotIndex(0, due)) {
      var t: nat :| tick <= t < due && SlotIndex(0, t) == SlotIndex(0, due);
      FirstLevelVisit(t);
      if due < t + 256 { SameSlotWithinTurn(t, due); }
    }
    if tick + Span(0) <= due {
      FirstLevelVisit(due - 256);
      assert tick <= due - 256 < due && SlotIndex(0, due - 256) == SlotIndex(0, due);
    }
  }

  /** A push to the first level is within a turn exactly when no tick looks at its slot before it is due. */
  lemma WithinTurnIffNotVisitedEarly(timer: Timer, ep: Epoch)
    requires Reached(ep) && ep.seen < timer.expires && DelayTicks(timer, ep.seen, ep.d) < Span(0)
    ensures var due := PushedEntry(timer, ep.start, ep.seen, ep.d).due;
      ep.tick <= due
      && (WithinTurn(timer, ep.start, ep.tick, ep.seen, ep.d) <==> !Visited(ep.tick, due, SlotIndex(0, due)))
  {
    hide Visited, SlotIndex;
    PushWithinOneTick(ep.start, ep.seen, timer.expires, ep.d);
    VisitedEarlyIffOutOfTurn(ep.tick, PushedEntry(timer, ep.start, ep.seen, ep.d).due);
  }

  // ---- the history of calls --------------------------------------------------------------------

  /** A push with the wheel's times when it was made, or a tick with the ticks from its start to its end. */
  datatype Call =
    | PushCall(timer: Timer, start: nat, tick: nat, now: nat)
    | TickCall(ticks: nat)

  ghost predicate InTurn(c: Call, d: nat) {
    c.PushCall? && d > 0 && c.start <= c.now ==> WithinTurn(c.timer, c.start, c.tick, c.now, d)
  }

  ghost predicate AllInTurn(calls: seq<Call>, d: nat) {
    forall c :: c in calls ==> InTurn(c, d)
  }

  lemma InTurnOneMore(calls: seq<Call>, c: Call, d: nat)
    ensures AllInTurn(calls + [c], d) <==> AllInTurn(calls, d) && InTurn(c, d)
  {
    hide InTurn;
    forall x | x in calls ensures x in calls + [c] { }
    assert (calls + [c])[|calls|] == c;
  }

  /** The calls so far with a tick that caught up with `ticks`. */
  ghost predicate Noted(before: seq<Call>, after: seq<Call>, ticks: int) {
    ticks >= 0 && after == before + [TickCall(ticks)]
  }

  /** A tick that has work to do lags by the ticks from the wheel's tick to the time it ends, both included. */
  lemma LagIs(start: nat, tick: nat, at: nat, end: nat, d: nat)
    requires d > 0 && start <= at <= end && tick < TicksSince(start, at, d)
    ensures Lag(start, tick, end, d) == TicksSince(start, end, d) - tick + 1
  {
    DivMonotone(at - start, end - start, d);
  }

  lemma ReachedAtStart(ep: Epoch)
    requires ep.d > 0 && ep.tick == 0 && ep.start <= ep.seen
    ensures Reached(ep)
  {
  }

  lemma ReachedKnows(ep: Epoch)
    requires Reached(ep)
    ensures ep.d > 0 && ep.start <= ep.seen
  {
  }

  /** The wheel after the loop of a tick has not run ahead of the clock. */
  lemma ReachedAfter(ep: Epoch, at: nat)
    requires ep.d > 0 && ep.start <= at <= ep.seen && ep.tick <= TicksSince(ep.start, at, ep.d) + 1
    ensures Reached(ep)
  {
    DivMonotone(at - ep.start, ep.seen - ep.start, ep.d);
  }

  /** The most ticks that one call had to catch up with. */
  function MostTicks(calls: seq<Call>): nat {
    if calls == [] then 0
    else
      var c, before := calls[|calls| - 1], MostTicks(calls[..|calls| - 1]);
      if c.TickCall? then Max(before, c.ticks) else before
  }

  lemma MostTicksOneMore(calls: seq<Call>, c: Call)
    ensures MostTicks(calls + [c]) == if c.TickCall? then Max(MostTicks(calls), c.ticks) else MostTicks(calls)
  {
    assert (calls + [c])[..|calls|] == calls;
  }

  lemma {:induction false} MostTicksBounded(calls: seq<Call>, most: nat)
    requires forall c :: c in calls && c.TickCall? ==> c.ticks <= most
    ensures MostTicks(calls) <= most
  {
    if calls != [] { MostTicksBounded(calls[..|calls| - 1], most); }
  }

  /** The ids of the timers whose handler was called. */
  ghost function FiredIds(fired: seq<Firing>): set<nat> {
    set f | f in fired :: f.timer.id
  }

  lemma FiredIdsOneMore(fired: seq<Firing>, f: Firing)
    ensures FiredIds(fired + [f]) == FiredIds(fired) + {f.timer.id}
  {
    assert f in fired + [f];
    assert forall x :: x in fired ==> x in fired + [f];
  }

  function Firings(slot: seq<Entry>, at: nat): (fs: seq<Firing>)
    ensures |fs| == |slot|
    ensures forall i :: 0 <= i < |fs| ==> fs[i] == Firing(slot[i].timer, at)
  {
    seq(|slot|, i requires 0 <= i < |slot| => Firing(slot[i].timer, at))
  }

  lemma FiringOf(slot: seq<Entry>, e: Entry, at: nat)
    requires e in slot
    ensures Firing(e.timer, at) in Firings(slot, at)
  {
    var i :| 0 <= i < |slot| && slot[i] == e;
    assert Firings(slot, at)[i] == Firing(e.timer, at);
  }

  /**
   First-level slots visited from tick `from` up to, not including, `upto` were fired at `at`, all that
   they held; the others still hold what they held.
   */
  ghost predicate Swept(before: Wheels, ws: Wheels, fired: seq<Firing>, from: nat, upto: nat, at: nat)
    requires Shaped(before) && Shaped(ws)
  {
    && (forall i, e :: 0 <= i < Slots(0) && Visited(from, upto, i) && e in before[0][i] ==> Firing(e.timer, at) in fired)
    && (forall i :: 0 <= i < Slots(0) && !Visited(from, upto, i) ==> before[0][i] <= ws[0][i])
  }

  /** The tick fired its whole first-level slot; the other first-level slots only grew. */
  ghost predicate Fires(before: Wheels, ws: Wheels, fired: seq<Firing>, tick: nat, at: nat)
    requires Shaped(before) && Shaped(ws)
  {
    && (forall e :: e in before[0][SlotIndex(0, tick)] ==> Firing(e.timer, at) in fired)
    && (forall i :: 0 <= i < Slots(0) && i != SlotIndex(0, tick) ==> before[0][i] <= ws[0][i])
  }

  lemma SweptFires(before: Wheels, ws: Wheels, fired: seq<Firing>, from: nat, upto: nat, at: nat, i: nat, e: Entry)
    requires Shaped(before) && Shaped(ws) && Swept(before, ws, fired, from, upto, at)
    requires i < Slots(0) && Visited(from, upto, i) && e in before[0][i]
    ensures Firing(e.timer, at) in fired
  {
  }

  lemma SweptLeaves(before: Wheels, ws: Wheels, fired: seq<Firing>, from: nat, upto: nat, at: nat, i: nat, e: Entry)
    requires Shaped(before) && Shaped(ws) && Swept(before, ws, fired, from, upto, at)
    requires i < Slots(0) && !Visited(from, upto, i) && e in before[0][i]
    ensures e in ws[0][i]
  {
  }

  lemma NothingSwept(ws: Wheels, fired: seq<Firing>, from: nat, at: nat)
    requires Shaped(ws)
    ensures Swept(ws, ws, fired, from, from, at)
  {
  }

  lemma SweptOneMore(before: Wheels, mid: Wheels, ws: Wheels, fired: seq<Firing>, fired': seq<Firing>,
                     from: nat, tick: nat, at: nat)
    requires Shaped(before) && Shaped(mid) && Shaped(ws) && from <= tick && fired <= fired'
    requires Swept(before, mid, fired, from, tick, at) && Fires(mid, ws, fired', tick, at)
    ensures Swept(before, ws, fired', from, tick + 1, at)
  {
    hide SlotIndex, Visited;
    forall i | 0 <= i < Slots(0)
      ensures Visited(from, tick + 1, i) <==> Visited(from, tick, i) || i == SlotIndex(0, tick)
    {
      VisitedOneMore(from, tick, i);
    }
    forall i, e | 0 <= i < Slots(0) && Visited(from, tick + 1, i) && e in before[0][i]
      ensures Firing(e.timer, at) in fired'
    {
      if !Visited(from, tick, i) {
        assert before[0][i] <= mid[0][i];
        assert e in mid[0][i];
      }
    }
  }

  /** An emptied wheel has nothing left that further ticks could fire. */
  lemma SweptToTheEnd(before: Wheels, ws: Wheels, fired: seq<Firing>, from: nat, tick: nat, upto: nat, at: nat)
    requires Shaped(before) && Shaped(ws) && tick <= upto && |AllTimers(ws)| == 0
    requires Swept(before, ws, fired, from, tick, at)
    ensures Swept(before, ws, fired, from, upto, at)
  {
    hide SlotIndex, AllTimers;
    forall i, e | 0 <= i < Slots(0) && Visited(from, upto, i) && e in before[0][i]
      ensures Firing(e.timer, at) in fired
    {
      EmptyMeansNoEntries(ws, 0, i);
    }
    forall i | 0 <= i < Slots(0) && !Visited(from, upto, i) ensures before[0][i] <= ws[0][i] {
      VisitedLater(from, tick, upto, i);
    }
  }

  lemma VisitedLater(from: nat, tick: nat, upto: nat, i: nat)
    requires tick <= upto
    ensures Visited(from, tick, i) ==> Visited(from, upto, i)
  {
    hide SlotIndex;
    if Visited(from, tick, i) {
      var t: nat :| from <= t < tick && SlotIndex(0, t) == i;
      assert from <= t < upto && SlotIndex(0, t) == i;
    }
  }

  /** No tick from `from` to `to` cascades a level. */
  predicate CascadeFree(from: nat, to: nat) {
    from / 256 == to / 256 && (from % 256 != 0 || from == 0)
  }

  lemma NoVisit(from: nat, tick: nat, to: nat, l: Level)
    requires CascadeFree(from, to) && from <= tick <= to && l >= 1
    ensures tick % Unit(l) != 0 || tick == 0
  {
    BetweenMultiples(from, tick, to);
    if tick % Unit(l) == 0 {
      match l
      case 1 =>
      case 2 => MultipleOf256(tick, 64);
      case 3 => MultipleOf256(tick, 4096);
      case 4 => MultipleOf256(tick, 262144);
    }
  }

  lemma QuietTick(from: nat, tick: nat, to: nat)
    requires from <= tick <= to
    ensures CascadeFree(from, to) ==> CascadeFree(tick, tick)
  {
    if CascadeFree(from, to) { BetweenMultiples(from, tick, to); }
  }

  lemma BetweenMultiples(from: nat, tick: nat, to: nat)
    requires CascadeFree(from, to) && from <= tick <= to
    ensures tick % 256 != 0 || tick == 0
  {
  }

  lemma MultipleOf256(x: nat, k: nat)
    requires k > 0 && x % (256 * k) == 0
    ensures x % 256 == 0
  {
    var q := x / (256 * k);
    assert x == 256 * k * q;
    assert x == 256 * (k * q);
  }

  /**
   What any number of timers of a cascaded slot do: histories grow, new firings are at `now` and less
   than a tick early, higher levels and the emptied slot are untouched, first-level slots only grow.
   */
  ghost predicate Cascades(ws: Wheels, ws': Wheels, fired: seq<Firing>, fired': seq<Firing>,
                           from: Level, tick: nat, now: nat, d: nat) {
    && Shaped(ws) && Shaped(ws') && fired <= fired'
    && (forall j :: |fired| <= j < |fired'| ==> fired'[j].at == now && fired'[j].timer.expires < now + d)
    && (forall l: Level :: from < l ==> ws'[l] == ws[l])
    && ws'[from][SlotIndex(from, tick)] == ws[from][SlotIndex(from, tick)]
    && (forall i :: 0 <= i < Slots(0) ==> ws[0][i] <= ws'[0][i])
  }

  lemma CascadesNothing(ws: Wheels, fired: seq<Firing>, from: Level, tick: nat, now: nat, d: nat)
    requires Shaped(ws)
    ensures Cascades(ws, ws, fired, fired, from, tick, now, d)
  {
  }

  lemma CascadesFires(ws: Wheels, fired: seq<Firing>, timer: Timer, from: Level, tick: nat, now: nat, d: nat)
    requires Shaped(ws) && timer.expires < now + d
    ensures Cascades(ws, ws, fired, fired + [Firing(timer, now)], from, tick, now, d)
  {
  }

  lemma CascadesTwice(ws: Wheels, ws1: Wheels, ws2: Wheels, fired: seq<Firing>, fired1: seq<Firing>, fired2: seq<Firing>,
                      from: Level, tick: nat, now: nat, d: nat)
    requires Cascades(ws, ws1, fired, fired1, from, tick, now, d)
    requires Cascades(ws1, ws2, fired1, fired2, from, tick, now, d)
    ensures Cascades(ws, ws2, fired, fired2, from, tick, now, d)
  {
    hide SlotIndex;
    forall j | |fired| <= j < |fired2| ensures fired2[j].at == now && fired2[j].timer.expires < now + d {
      if j < |fired1| { assert fired2[j] == fired1[j]; }
    }
    forall i | 0 <= i < Slots(0) ensures ws[0][i] <= ws2[0][i] {
      assert ws[0][i] <= ws1[0][i] <= ws2[0][i];
    }
  }

  lemma CascadesNew(ws: Wheels, ws': Wheels, fired: seq<Firing>, fired': seq<Firing>, from: Level, tick: nat, now: nat, d: nat)
    requires Cascades(ws, ws', fired, fired', from, tick, now, d)
    ensures forall j :: |fired| <= j < |fired'| ==> fired'[j].at == now && fired'[j].timer.expires < now + d
  {
  }

  /** Putting a timer back touches no higher level, not the emptied slot, and only appends. */
  lemma PlacedBelow(ws: Wheels, fired: seq<Firing>, from: Level, tick: nat, now: nat, d: nat, remaining: nat, e: Entry)
    requires Shaped(ws) && from >= 1 && tick % Unit(from) == 0 && e.due == tick + remaining
    requires 0 < remaining < Span(4) && LevelFor(remaining) <= from
    ensures Cascades(ws, Place(ws, LevelFor(remaining), e), fired, fired, from, tick, now, d)
  {
    hide SlotIndex;
    if LevelFor(remaining) == from { PutBackElsewhere(from, tick, remaining); }
  }

  /** Emptying a slot of a higher level and cascading its timers. */
  lemma CascadesFromEmptied(ws: Wheels, ws': Wheels, fired: seq<Firing>, fired': seq<Firing>, from: Level, tick: nat, now: nat, d: nat)
    requires Shaped(ws) && from >= 1
    requires Cascades(Replace(ws, from, SlotIndex(from, tick), []), ws', fired, fired', from, tick, now, d)
    ensures forall l: Level :: from < l ==> ws'[l] == ws[l]
    ensures ws'[from][SlotIndex(from, tick)] == []
    ensures forall i :: 0 <= i < Slots(0) ==> ws[0][i] <= ws'[0][i]
  {
    hide SlotIndex;
  }

  // ---- the steps of a tick ---------------------------------------------------------------------

  /** The tick being processed has begun. */
  ghost predicate Begun(ep: Epoch) {
    ep.d > 0 && ep.start <= ep.seen && ep.start + ep.tick * ep.d <= ep.seen
  }

  lemma TickBegun(ep: Epoch, now: nat)
    requires ep.d > 0 && ep.start <= now <= ep.seen && ep.tick <= TicksSince(ep.start, now, ep.d)
    ensures Begun(ep) && ep.start + ep.tick * ep.d <= now
  {
    DivFloor(now - ep.start, ep.d);
    MulMonotone(ep.tick, TicksSince(ep.start, now, ep.d), ep.d);
  }

  function Max(a: nat, b: nat): (m: nat)
    ensures a <= m && b <= m && (m == a || m == b)
  {
    if a < b then b else a
  }

  /** The time and the lag recorded when a cascade reads the clock. */
  function AtCascade(ep: Epoch, now: nat): (ep': Epoch)
    requires ep.d > 0 && ep.start <= now
  {
    ep.(seen := now, slack := Max(ep.slack, Lag(ep.start, ep.tick, now, ep.d)))
  }

  lemma CascadeReads(ws: Wheels, ep: Epoch, k: int, fired: seq<Firing>, now: nat)
    requires Kept(ws, ep, k, fired) && ep.start <= ep.seen <= now
    ensures Kept(ws, AtCascade(ep, now), k, fired)
  {
    LaterKeeps(ws, ep, AtCascade(ep, now), k);
    LaterNotEarly(fired, ep, AtCascade(ep, now));
  }

  lemma ShrinkKeeps(ws: Wheels, ep: Epoch, k: int, l: Level, i: nat, slot: seq<Entry>)
    requires Shaped(ws) && Scheduled(ws, ep, k) && i < Slots(l)
    requires forall e :: e in slot ==> e in ws[l][i]
    ensures Scheduled(Replace(ws, l, i, slot), ep, k)
  {
    var ws' := Replace(ws, l, i, slot);
    forall l': Level, i', e: Entry | 0 <= i' < Slots(l') && e in ws'[l'][i']
      ensures SlotIndex(l', e.due) == i' && Punctual(l', e, ep) && Ahead(l', e, ep.tick, k)
    {
      assert e in ws[l'][i'];
    }
  }

  /** Taking the level's current slot out and reading the clock. */
  lemma TakeOutKeeps(ws: Wheels, ep: Epoch, l: Level, fired: seq<Firing>, now: nat)
    requires l >= 1 && Kept(ws, ep, l - 1, fired) && Begun(ep) && ep.seen <= now
    ensures Kept(Replace(ws, l, SlotIndex(l, ep.tick), []), AtCascade(ep, now), l, fired)
    ensures Begun(AtCascade(ep, now))
    ensures forall e :: e in ws[l][SlotIndex(l, ep.tick)] ==> e.timer.expires < now + Span(l) * ep.d
  {
    ClearKeeps(ws, ep, l);
    CascadeReads(Replace(ws, l, SlotIndex(l, ep.tick), []), ep, l, fired, now);
    assert forall e :: e in ws[l][SlotIndex(l, ep.tick)] ==> Punctual(l, e, ep);
  }

  /** Firing the first timer of the first level's current slot. */
  lemma FireFrontKeeps(ws: Wheels, ep: Epoch, fired: seq<Firing>, at: nat)
    requires Kept(ws, ep, LEVELS - 1, fired) && ep.start + ep.tick * ep.d <= at && ep.pushed <= at
    requires ws[0][SlotIndex(0, ep.tick)] != []
    ensures var slot := ws[0][SlotIndex(0, ep.tick)];
            Kept(Replace(ws, 0, SlotIndex(0, ep.tick), slot[1..]), ep, LEVELS - 1,
                 fired + [Firing(slot[0].timer, at)])
  {
    var slot := ws[0][SlotIndex(0, ep.tick)];
    assert slot[0] in slot;
    assert Punctual(0, slot[0], ep) && Ahead(0, slot[0], ep.tick, LEVELS - 1);
    SlotFiresInTime(slot[0], ep, at);
    ShrinkKeeps(ws, ep, LEVELS - 1, 0, SlotIndex(0, ep.tick), slot[1..]);
  }

  /** What a cascade does with a live timer that is at least one full tick away. */
  lemma CascadeKeeps(ws: Wheels, ep: Epoch, from: Level, fired: seq<Firing>, timer: Timer)
    requires Kept(ws, ep, from, fired) && Begun(ep) && ep.seen < timer.expires
    requires timer.expires < ep.seen + Span(from) * ep.d
    requires Lag(ep.start, ep.tick, ep.seen, ep.d) <= ep.slack
    requires TicksSince(ep.seen, timer.expires, ep.d) > 0
    ensures TicksSince(ep.seen, timer.expires, ep.d) < Span(4)
    ensures LevelFor(TicksSince(ep.seen, timer.expires, ep.d)) <= from
    ensures var rem := TicksSince(ep.seen, timer.expires, ep.d);
            Kept(Place(ws, LevelFor(rem), Entry(timer, ep.tick + rem)), ep, from, fired)
  {
    CascadePunctual(timer, ep, from, from);
    var rem := TicksSince(ep.seen, timer.expires, ep.d);
    PlaceKeeps(ws, ep, from, LevelFor(rem), Entry(timer, ep.tick + rem));
  }

  lemma LagMonotone(start: nat, tick: nat, tick': nat, now: nat, now': nat, d: nat)
    requires d > 0 && start <= now <= now' && tick <= tick'
    ensures Lag(start, tick', now, d) <= Lag(start, tick, now', d)
  {
    DivMonotone(now - start, now' - start, d);
  }

  // ---- the counts ------------------------------------------------------------------------------

  lemma TakeOutCounted(ws: Wheels, size: nat, l: Level, i: nat, accepted: multiset<Timer>, gone: multiset<Timer>)
    requires Shaped(ws) && i < Slots(l) && Counted(ws, size, [], accepted, gone)
    ensures Counted(Replace(ws, l, i, []), size, ws[l][i], accepted, gone)
  {
    ClearCounts(ws, l, i);
  }

  lemma DropCounted(ws: Wheels, size: nat, held: seq<Entry>, accepted: multiset<Timer>, gone: multiset<Timer>)
    requires held != [] && Counted(ws, size, held, accepted, gone)
    ensures size > 0
    ensures Counted(ws, size - 1, held[1..], accepted, gone + multiset{held[0].timer})
  {
    SlotPrepend(held);
  }

  lemma PutBackCounted(ws: Wheels, size: nat, held: seq<Entry>, accepted: multiset<Timer>,
                       gone: multiset<Timer>, l: Level, due: nat)
    requires Shaped(ws) && held != [] && Counted(ws, size, held, accepted, gone)
    ensures Counted(Place(ws, l, Entry(held[0].timer, due)), size, held[1..], accepted, gone)
  {
    SlotPrepend(held);
    PlaceCounts(ws, l, Entry(held[0].timer, due));
  }

  lemma FireCounted(ws: Wheels, size: nat, l: Level, i: nat, accepted: multiset<Timer>, gone: multiset<Timer>)
    requires Shaped(ws) && i < Slots(l) && ws[l][i] != [] && Counted(ws, size, [], accepted, gone)
    ensures size > 0
    ensures Counted(Replace(ws, l, i, ws[l][i][1..]), size - 1, [], accepted,
                    gone + multiset{ws[l][i][0].timer})
  {
    PopCounts(ws, l, i);
  }

  /** After a tick that ended because the next tick has not begun, nothing is two ticks late. */
  lemma AllInTime(ws: Wheels, ep: Epoch, target: nat, now: nat)
    requires ep.d > 0 && ep.start <= now && target == TicksSince(ep.start, now, ep.d) <= ep.tick
    requires Shaped(ws) && Scheduled(ws, ep, 0)
    ensures forall l: Level, i, e :: 0 <= i < Slots(l) && e in ws[l][i] ==> now < e.timer.expires + 2 * ep.d
  {
    forall l: Level, i, e: Entry | 0 <= i < Slots(l) && e in ws[l][i]
      ensures now < e.timer.expires + 2 * ep.d
    {
      StoredNotLate(l, e, ep, target, now);
    }
  }

  lemma NothingCounted(ws: Wheels, size: nat, accepted: multiset<Timer>, gone: multiset<Timer>)
    requires Counted(ws, size, [], accepted, gone) && size == 0
    ensures |AllTimers(ws)| == 0
  {
  }

  lemma NothingStored(ws: Wheels, d: nat, now: nat)
    requires Shaped(ws) && |AllTimers(ws)| == 0
    ensures forall l: Level, i, e :: 0 <= i < Slots(l) && e in ws[l][i] ==> now < e.timer.expires + 2 * d
  {
    forall l: Level, i | 0 <= i < Slots(l) ensures ws[l][i] == [] { EmptyMeansNoEntries(ws, l, i); }
  }
}
