/** The slot lists of the timing wheel and the timers they hold. */
module WheelStore {
  import opened WheelMath

  datatype Timer = Timer(id: nat, expires: nat)

  /** A stored timer with the absolute tick computed when it was put into its slot. */
  datatype Entry = Entry(timer: Timer, due: nat)

  /** wheels[l][i] is the list in slot i of level l. */
  type Wheels = seq<seq<seq<Entry>>>

  ghost predicate Shaped(ws: Wheels) {
    |ws| == LEVELS && forall l: Level :: |ws[l]| == Slots(l)
  }

  function EmptyWheels(): (ws: Wheels)
    ensures Shaped(ws)
    ensures forall l: Level, i :: 0 <= i < Slots(l) ==> ws[l][i] == []
  {
    seq(LEVELS, l requires 0 <= l < LEVELS => seq(Slots(l), _ => []))
  }

  function Replace(ws: Wheels, l: Level, i: nat, slot: seq<Entry>): (ws': Wheels)
    requires Shaped(ws) && i < Slots(l)
    ensures Shaped(ws')
  {
    ws[l := ws[l][i := slot]]
  }

  function Place(ws: Wheels, l: Level, e: Entry): (ws': Wheels)
    requires Shaped(ws)
    ensures Shaped(ws')
  {
    Replace(ws, l, SlotIndex(l, e.due), ws[l][SlotIndex(l, e.due)] + [e])
  }

  /** The timers in a list, in a wheel, and in all wheels. */
  function SlotTimers(slot: seq<Entry>): multiset<Timer> {
    multiset(TimersOf(slot))
  }

  function TimersOf(slot: seq<Entry>): (timers: seq<Timer>) {
    seq(|slot|, i requires 0 <= i < |slot| => slot[i].timer)
  }

  function WheelTimers(w: seq<seq<Entry>>): multiset<Timer> {
    if w == [] then multiset{} else WheelTimers(w[..|w| - 1]) + SlotTimers(w[|w| - 1])
  }

  function AllTimers(ws: Wheels): multiset<Timer> {
    if ws == [] then multiset{} else AllTimers(ws[..|ws| - 1]) + WheelTimers(ws[|ws| - 1])
  }

  lemma SlotAppend(slot: seq<Entry>, e: Entry)
    ensures SlotTimers(slot + [e]) == SlotTimers(slot) + multiset{e.timer}
  {
    assert TimersOf(slot + [e]) == TimersOf(slot) + [e.timer];
  }

  lemma SlotPrepend(slot: seq<Entry>)
    requires slot != []
    ensures SlotTimers(slot) == multiset{slot[0].timer} + SlotTimers(slot[1..])
  {
    assert TimersOf(slot) == [slot[0].timer] + TimersOf(slot[1..]);
  }

  lemma {:induction false} WheelUpdate(w: seq<seq<Entry>>, i: nat, slot: seq<Entry>, t: Timer)
    requires i < |w|
    ensures WheelTimers(w[i := slot])[t] + SlotTimers(w[i])[t] == WheelTimers(w)[t] + SlotTimers(slot)[t]
  {
    var last := |w| - 1;
    var init, w' := w[..last], w[i := slot];
    assert WheelTimers(w)[t] == WheelTimers(init)[t] + SlotTimers(w[last])[t];
    assert WheelTimers(w')[t] == WheelTimers(w'[..last])[t] + SlotTimers(w'[last])[t];
    if i < last {
      WheelUpdate(init, i, slot, t);
      assert w'[..last] == init[i := slot];
    } else {
      assert w'[..last] == init;
    }
  }

  lemma {:induction false} AllUpdate(ws: Wheels, l: nat, w: seq<seq<Entry>>, t: Timer)
    requires l < |ws|
    ensures AllTimers(ws[l := w])[t] + WheelTimers(ws[l])[t] == AllTimers(ws)[t] + WheelTimers(w)[t]
  {
    var last := |ws| - 1;
    if l < last {
      AllUpdate(ws[..last], l, w, t);
      assert ws[l := w][..last] == ws[..last][l := w];
    } else {
      assert ws[l := w][..last] == ws[..last];
    }
  }

  lemma ReplaceCounts(ws: Wheels, l: Level, i: nat, slot: seq<Entry>, t: Timer)
    requires Shaped(ws) && i < Slots(l)
    ensures AllTimers(Replace(ws, l, i, slot))[t] + SlotTimers(ws[l][i])[t]
            == AllTimers(ws)[t] + SlotTimers(slot)[t]
  {
    WheelUpdate(ws[l], i, slot, t);
    AllUpdate(ws, l, ws[l][i := slot], t);
  }

  lemma PlaceCounts(ws: Wheels, l: Level, e: Entry)
    requires Shaped(ws)
    ensures AllTimers(Place(ws, l, e)) == AllTimers(ws) + multiset{e.timer}
  {
    var i := SlotIndex(l, e.due);
    SlotAppend(ws[l][i], e);
    forall t ensures AllTimers(Place(ws, l, e))[t] == (AllTimers(ws) + multiset{e.timer})[t] {
      ReplaceCounts(ws, l, i, ws[l][i] + [e], t);
    }
  }

  lemma ClearCounts(ws: Wheels, l: Level, i: nat)
    requires Shaped(ws) && i < Slots(l)
    ensures AllTimers(ws) == AllTimers(Replace(ws, l, i, [])) + SlotTimers(ws[l][i])
  {
    forall t ensures AllTimers(ws)[t] == (AllTimers(Replace(ws, l, i, [])) + SlotTimers(ws[l][i]))[t] {
      ReplaceCounts(ws, l, i, [], t);
    }
  }

  lemma PopCounts(ws: Wheels, l: Level, i: nat)
    requires Shaped(ws) && i < Slots(l) && ws[l][i] != []
    ensures AllTimers(ws) == AllTimers(Replace(ws, l, i, ws[l][i][1..])) + multiset{ws[l][i][0].timer}
  {
    var slot := ws[l][i];
    SlotPrepend(slot);
    var ws' := Replace(ws, l, i, slot[1..]);
    forall t ensures AllTimers(ws)[t] == (AllTimers(ws') + multiset{slot[0].timer})[t] {
      ReplaceCounts(ws, l, i, slot[1..], t);
    }
  }

  lemma {:induction false} NoEntries(w: seq<seq<Entry>>)
    requires forall i :: 0 <= i < |w| ==> w[i] == []
    ensures WheelTimers(w) == multiset{}
  {
    if w != [] { NoEntries(w[..|w| - 1]); }
  }

  lemma {:induction false} NoWheelEntries(ws: Wheels)
    requires forall l, i :: 0 <= l < |ws| && 0 <= i < |ws[l]| ==> ws[l][i] == []
    ensures AllTimers(ws) == multiset{}
  {
    if ws != [] {
      NoWheelEntries(ws[..|ws| - 1]);
      NoEntries(ws[|ws| - 1]);
    }
  }

  /** When no timer is counted every slot is empty. */
  lemma EmptyMeansNoEntries(ws: Wheels, l: Level, i: nat)
    requires Shaped(ws) && i < Slots(l) && |AllTimers(ws)| == 0
    ensures ws[l][i] == []
  {
    ClearCounts(ws, l, i);
  }

  lemma ReplaceSame(ws: Wheels, l: Level, i: nat)
    requires Shaped(ws) && i < Slots(l)
    ensures Replace(ws, l, i, ws[l][i]) == ws
  {
    assert ws[l][i := ws[l][i]] == ws[l];
  }

  lemma ReplaceTwice(ws: Wheels, l: Level, i: nat, a: seq<Entry>, b: seq<Entry>)
    requires Shaped(ws) && i < Slots(l)
    ensures Replace(Replace(ws, l, i, a), l, i, b) == Replace(ws, l, i, b)
  {
    assert ws[l][i := a][i := b] == ws[l][i := b];
  }
}
