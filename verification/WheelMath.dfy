/** Levels, slots and time arithmetic of the five-level timing wheel. */
module WheelMath {

  const LEVELS: nat := 5

  /** Level 0 is the first wheel of the source, level 4 the fifth. */
  type Level = l: int | 0 <= l < LEVELS witness 0

  /** Ticks between two visits to neighbouring slots of a level. */
  function Unit(l: Level): (u: nat)
    ensures u > 0
  {
    match l
    case 0 => 1
    case 1 => 256
    case 2 => 16384
    case 3 => 1048576
    case 4 => 67108864
  }

  function Slots(l: Level): (n: nat)
    ensures n > 0
  {
    if l == 0 then 256 else 64
  }

  /** Ticks covered by a level. */
  function Span(l: Level): nat {
    match l
    case 0 => 256
    case 1 => 16384
    case 2 => 1048576
    case 3 => 67108864
    case 4 => 4294967296
  }

  /** 256 slots of a tick each; above, 64 slots that each cover the whole level below, 2^32 ticks in all. */
  lemma LevelsNest(l: Level)
    ensures Span(l) == Slots(l) * Unit(l) && Unit(0) == 1 && Slots(0) == 256
    ensures l + 1 < LEVELS ==> Unit(l + 1) == Span(l) && Slots(l + 1) == 64
    ensures LEVELS == 5 && Span(4) == 0x1_0000_0000
  {
  }

  function SlotIndex(l: Level, tick: nat): (slot: nat)
    ensures slot < Slots(l)
  {
    (tick / Unit(l)) % Slots(l)
  }

  /** The tick at which the slot for `due` is cascaded (or, on level 0, fired). */
  function Visit(l: Level, due: nat): nat {
    (due / Unit(l)) * Unit(l)
  }

  /** The level for a distance of `ticks`. */
  function LevelFor(ticks: nat): (l: Level)
    requires ticks < Span(4)
    ensures ticks < Span(l)
    ensures l > 0 ==> Unit(l) <= ticks
    ensures forall k: Level :: ticks < Span(k) ==> l <= k
  {
    if ticks < Span(0) then 0
    else if ticks < Span(1) then 1
    else if ticks < Span(2) then 2
    else if ticks < Span(3) then 3
    else 4
  }

  /** A slot's visit comes at most one unit before the entry is due, at a multiple of the unit. */
  lemma VisitBeforeDue(l: Level, due: nat)
    ensures Visit(l, due) <= due < Visit(l, due) + Unit(l)
    ensures Visit(l, due) % Unit(l) == 0
  {
    match l
    case 0 =>
    case 1 =>
    case 2 =>
    case 3 =>
    case 4 =>
  }

  /** At its visit tick an entry is in the slot the wheel looks at. */
  lemma VisitFindsSlot(l: Level, due: nat)
    ensures SlotIndex(l, due) == SlotIndex(l, Visit(l, due))
  {
    DivOfProduct(due / Unit(l), Unit(l));
  }

  lemma DivOfProduct(q: nat, u: nat)
    requires u > 0
    ensures q * u / u == q
  {
    var r := q * u / u;
    DivFloor(q * u, u);
    Distribute(r, 1, u);
    Distribute(q, 1, u);
    MulCancel(q, r + 1, u);
    MulCancel(r, q + 1, u);
  }

  lemma FirstLevelVisit(due: nat)
    ensures Visit(0, due) == due && SlotIndex(0, due) == due % 256
  {
  }

  lemma DivFloor(x: nat, d: nat)
    requires d > 0
    ensures (x / d) * d <= x < (x / d) * d + d
  {
  }

  /** Full ticks of length `d` from `start` to `now`. */
  function TicksSince(start: nat, now: nat, d: nat): nat
    requires d > 0 && start <= now
  {
    (now - start) / d
  }

  function CeilDiv(x: nat, d: nat): nat
    requires d > 0
  {
    (x + d - 1) / d
  }

  lemma CeilDivBounds(x: nat, d: nat)
    requires d > 0 && x > 0
    ensures CeilDiv(x, d) >= 1
    ensures x <= CeilDiv(x, d) * d < x + d
  {
    DivFloor(x + d - 1, d);
    if CeilDiv(x, d) == 0 {
      assert false;
    }
  }

  lemma Distribute(a: int, b: int, d: int)
    ensures (a + b) * d == a * d + b * d
  {
  }

  lemma MulMonotone(a: nat, b: nat, d: nat)
    requires a <= b
    ensures a * d <= b * d
  {
  }

  /** The slot tick of a push is less than one tick away from the timer's expiry, on either side. */
  lemma PushWithinOneTick(start: nat, now: nat, expires: nat, d: nat)
    requires d > 0 && start <= now < expires
    ensures var due := TicksSince(start, now, d) + CeilDiv(expires - now, d);
            start + due * d < expires + d && expires < start + due * d + d
    ensures expires <= now + CeilDiv(expires - now, d) * d
    ensures CeilDiv(expires - now, d) >= 1
  {
    DivFloor(now - start, d);
    CeilDivBounds(expires - now, d);
    Distribute((now - start) / d, CeilDiv(expires - now, d), d);
  }

  /** A cascade rounds down: the new slot tick is not after the expiry. */
  lemma CascadeNotLate(start: nat, tick: nat, now: nat, expires: nat, d: nat)
    requires d > 0 && start + tick * d <= now < expires
    ensures start + (tick + (expires - now) / d) * d <= expires
    ensures expires < now + (expires - now) / d * d + d
  {
    DivFloor(expires - now, d);
    Distribute(tick, (expires - now) / d, d);
  }

  /** Full ticks from `tick` to `now`, counting the tick in progress. */
  function Lag(start: nat, tick: nat, now: nat, d: nat): nat
    requires d > 0 && start <= now
  {
    if TicksSince(start, now, d) < tick then 0 else TicksSince(start, now, d) - tick + 1
  }

  /** ... and it is early by no more than the lag of the cascade plus one tick. */
  lemma CascadeNotEarly(start: nat, tick: nat, now: nat, expires: nat, d: nat)
    requires d > 0 && start + tick * d <= now < expires
    ensures expires < start + (tick + (expires - now) / d + Lag(start, tick, now, d) + 1) * d
  {
    var rem, lag := (expires - now) / d, Lag(start, tick, now, d);
    CascadeNotLate(start, tick, now, expires, d);
    DivFloor(now - start, d);
    if (now - start) / d < tick {
      MulMonotone((now - start) / d + 1, tick, d);
      Distribute((now - start) / d, 1, d);
      assert false;
    }
    Distribute(tick + lag, rem + 1, d);
    Distribute((now - start) / d, 1, d);
    Distribute(rem, 1, d);
  }

  lemma DivMonotone(a: nat, b: nat, d: nat)
    requires d > 0 && a <= b
    ensures a / d <= b / d
  {
    DivFloor(a, d);
    DivFloor(b, d);
    Distribute(b / d, 1, d);
    MulCancel(a / d, b / d + 1, d);
  }

  lemma MulCancel(a: nat, b: nat, d: nat)
    requires a * d < b * d
    ensures a < b
  {
    if b <= a { MulMonotone(b, a, d); }
  }

  /** A timer that is put back on the level it comes from does not land in the slot being emptied. */
  lemma PutBackElsewhere(l: Level, tick: nat, remaining: nat)
    requires l >= 1 && tick % Unit(l) == 0 && Unit(l) <= remaining < Span(l)
    ensures SlotIndex(l, tick + remaining) != SlotIndex(l, tick)
  {
    hide SlotIndex;
    var u, q, r := Unit(l), tick / Unit(l), remaining / Unit(l);
    DivFloor(tick, u);
    DivFloor(remaining, u);
    ExactMultiple(tick, u);
    Distribute(q, r, u);
    Distribute(q + r, 1, u);
    QuotientIs(tick + remaining, u, q + r);
    if r == 0 { assert false; }
    if r >= 64 { MulMonotone(64, r, u); SpanIsTurn(l); assert false; }
    SlotOf(l, tick);
    SlotOf(l, tick + remaining);
    Shifted(q, r);
  }

  lemma ExactMultiple(x: nat, u: nat)
    requires u > 0 && x % u == 0
    ensures x / u * u == x
  {
  }

  lemma QuotientIs(x: nat, u: nat, q: nat)
    requires u > 0 && q * u <= x < (q + 1) * u
    ensures x / u == q
  {
    DivFloor(x, u);
    Distribute(x / u, 1, u);
    Distribute(q, 1, u);
    MulCancel(q, x / u + 1, u);
    MulCancel(x / u, q + 1, u);
  }

  lemma SpanIsTurn(l: Level)
    requires l >= 1
    ensures Span(l) == 64 * Unit(l)
  {
  }

  lemma SlotOf(l: Level, tick: nat)
    requires l >= 1
    ensures SlotIndex(l, tick) == tick / Unit(l) % 64
  {
  }

  lemma Shifted(q: nat, r: nat)
    requires 0 < r < 64
    ensures (q + r) % 64 != q % 64
  {
  }
}
