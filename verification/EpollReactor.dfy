/**
 Epoll's queue of coalesced interest changes against a kernel that registers at once.  A controller
 is a number; the kernel's table, its failures and the masks last asked for are part of the model.
 */
module EpollReactor {
  import opened Domains
  import SlotOwnership

  datatype Flag = IN | OUT | ET

  type Mask = set<Flag>
  type Controller = nat

  // ---- which events a controller asks for ------------------------------------------------------

  function TypeEvents(types: set<Event>): Mask {
    {ET}
    + (if types * {ACCEPT, RECV, READV, RECVFROM, FILEREAD, FILEWATCH} != {} then {IN} else {})
    + (if types * {CONNECT, SEND, WRITEV, SENDTO, SENDFILE, FILEWRITE} != {} then {OUT} else {})
  }

  /** A flag is asked for exactly when some event of the controller uses its slot; ET always is. */
  lemma TypesAskForTheirSlots(types: set<Event>)
    ensures IN in TypeEvents(types) <==> exists e :: e in types && EventUsesSlot(e, READ)
    ensures OUT in TypeEvents(types) <==> exists e :: e in types && EventUsesSlot(e, WRITE)
    ensures ET in TypeEvents(types)
  {
    var readers := types * {ACCEPT, RECV, READV, RECVFROM, FILEREAD, FILEWATCH};
    var writers := types * {CONNECT, SEND, WRITEV, SENDTO, SENDFILE, FILEWRITE};
    if readers != {} {
      var e :| e in readers;
      assert e in types && EventUsesSlot(e, READ);
    }
    if e :| e in types && EventUsesSlot(e, READ) { assert e in readers; }
    if writers != {} {
      var e :| e in writers;
      assert e in types && EventUsesSlot(e, WRITE);
    }
    if e :| e in types && EventUsesSlot(e, WRITE) { assert e in writers; }
  }

  function InterestEvents(interest: set<Slot>): Mask {
    {ET} + (if READ in interest then {IN} else {}) + (if WRITE in interest then {OUT} else {})
  }

  function BuildEvents(types: set<Event>, interest: set<Slot>): Mask {
    if SEQUENCE in types then TypeEvents(types) + InterestEvents(interest) else TypeEvents(types)
  }

  /** With a synced mask, readiness of a slot is asked for exactly when something waits on the slot. */
  lemma AskedExactlyForWaits(c: SlotOwnership.IOController, slot: Slot)
    requires c.Valid() && c.Covered() && c.interest == c.Collect()
    ensures (if slot == READ then IN else OUT) in BuildEvents(c.types, c.interest) <==>
            (exists e :: e in c.types && EventUsesSlot(e, slot)) || c.Served(slot)
    ensures ET in BuildEvents(c.types, c.interest)
  {
    hide TypeEvents;
    TypesAskForTheirSlots(c.types);
    c.MaskIsWhatOwnersWaitFor(slot);
  }

  // ---- registration ----------------------------------------------------------------------------

  /** ET alone stands for not registered. */
  function Norm(events: Mask): Mask { if events == {ET} then {} else events }

  function Of(m: map<Controller, Mask>, c: Controller): Mask { if c in m then m[c] else {} }

  datatype Change = Change(controller: Controller, events: Mask)

  datatype Op = ADD | MOD | DEL

  datatype Status = Done | NoEntry | Failed

  ghost predicate Distinct(pending: seq<Change>) {
    forall i, j :: 0 <= i < j < |pending| ==> pending[i].controller != pending[j].controller
  }

  ghost predicate IsPending(pending: seq<Change>, c: Controller) {
    exists i :: 0 <= i < |pending| && pending[i].controller == c
  }

  /** The place of the controller's entry, or the end. */
  function IndexOf(pending: seq<Change>, c: Controller): (i: nat)
    ensures i <= |pending| && (i < |pending| ==> pending[i].controller == c)
    ensures forall k :: 0 <= k < i ==> pending[k].controller != c
  {
    if pending == [] || pending[0].controller == c then 0 else 1 + IndexOf(pending[1..], c)
  }

  /** The queue without the controller's entry. */
  function Without(pending: seq<Change>, c: Controller): seq<Change> {
    var i := IndexOf(pending, c);
    if i < |pending| then pending[..i] + pending[i + 1..] else pending
  }

  /** The queue with the change in the controller's place, or at the end. */
  function Requeued(pending: seq<Change>, change: Change): seq<Change> {
    var i := IndexOf(pending, change.controller);
    if i < |pending| then pending[i := change] else pending + [change]
  }

  const BATCH_THRESHOLD: nat := 32

  class Reactor {
    var pending: seq<Change>
    var live: set<Controller>
    var registered: map<Controller, Mask>
    var kernel: map<Controller, Mask>
    ghost var requested: map<Controller, Mask>
    ghost var refusals: nat    // calls that the kernel refused for another reason than a missing entry

    /** One entry per controller, the cache mirrors the kernel, and what is not pending is in force. */
    ghost predicate Valid()
      reads this
    {
      && Distinct(pending)
      && (forall i :: 0 <= i < |pending| ==> ET in pending[i].events)
      && (forall c: Controller :: Agrees(c))
    }

    ghost predicate Agrees(c: Controller)
      reads this
    {
      && Of(kernel, c) == Of(registered, c) && (c !in live ==> Of(registered, c) == {})
      && (Of(registered, c) == {} || (ET in Of(registered, c) && Of(registered, c) != {ET}))
      && (c in live && !IsPending(pending, c) ==> Of(registered, c) == Norm(Of(requested, c)))
      && (forall i :: 0 <= i < |pending| && pending[i].controller == c && c in live ==> pending[i].events == Of(requested, c))
    }

    constructor ()
      ensures Valid() && pending == [] && live == {}
    {
      pending, live, registered, kernel, requested, refusals := [], {}, map[], map[], map[], 0;
    }

    /** A descriptor is attached to a controller that has none. */
    method Open(c: Controller)
      requires Valid() && c !in live && !IsPending(pending, c)
      modifies this`live, this`requested
      ensures Valid() && live == old(live) + {c} && requested == old(requested)[c := {ET}]
    {
      live, requested := live + {c}, requested[c := {ET}];
      forall d: Controller ensures Agrees(d) {
        assert old(Agrees(d));
      }
    }

    /** epoll_ctl, repeated while it is interrupted: it succeeds, reports a missing entry, or fails unchanged. */
    method Ctl(op: Op, c: Controller, events: Mask) returns (status: Status)
      modifies this`kernel, this`refusals
      ensures refusals == old(refusals) + (if status.Failed? then 1 else 0)
      ensures status.Done? ==> Of(kernel, c) == (if op.DEL? then {} else events)
      ensures !status.Done? ==> kernel == old(kernel)
      ensures status.NoEntry? ==> !op.ADD? && Of(kernel, c) == {}
      ensures forall d: Controller :: d != c ==> Of(kernel, d) == Of(old(kernel), d)
    {
      var lucky: bool := *;
      if !op.ADD? && Of(kernel, c) == {} {
        status := NoEntry;
      } else if !lucky || (op.ADD? && Of(kernel, c) != {}) {
        status, refusals := Failed, refusals + 1;
      } else {
        status := Done;
        kernel := kernel[c := if op.DEL? then {} else events];
      }
    }

    method FindPending(c: Controller) returns (index: nat)
      ensures index <= |pending|
      ensures index < |pending| ==> pending[index].controller == c
      ensures index == |pending| <==> !IsPending(pending, c)
      ensures index == IndexOf(pending, c)
    {
      index := 0;
      while index < |pending|
        invariant index <= |pending|
        invariant forall i :: 0 <= i < index ==> pending[i].controller != c
      {
        if pending[index].controller == c {
          return;
        }
        index := index + 1;
      }
    }

    /** The mask of `c` is what it should be when nothing is pending for it. */
    ghost predicate Settled(c: Controller)
      reads this
    {
      && Of(kernel, c) == Of(registered, c)
      && Of(registered, c) == (if c in live then Norm(Of(requested, c)) else {})
      && (Of(registered, c) == {} || (ET in Of(registered, c) && Of(registered, c) != {ET}))
    }

    /** Removing an entry that is in force, or whose controller is closed, leaves everything in order. */
    twostate lemma Erased(i: nat)
      requires old(Valid()) && i < |old(pending)| && pending == old(pending)[..i] + old(pending)[i + 1..]
      requires live == old(live) && Settled(old(pending)[i].controller)
      requires forall d: Controller :: d != old(pending)[i].controller ==>
        && Of(registered, d) == old(Of(registered, d)) && Of(kernel, d) == old(Of(kernel, d))
        && Of(requested, d) == old(Of(requested, d))
      ensures Valid()
    {
      assert forall k :: 0 <= k < |pending| ==> pending[k] == old(pending)[if k < i then k else k + 1];
      forall d: Controller ensures Agrees(d) {
        assert old(Agrees(d));
        if IsPending(old(pending), d) && d != old(pending)[i].controller {
          var k :| 0 <= k < |old(pending)| && old(pending)[k].controller == d;
          assert pending[if k < i then k else k - 1].controller == d;
        }
      }
    }

    method Erase(i: nat)
      requires i < |pending|
      modifies this`pending
      ensures pending == old(pending)[..i] + old(pending)[i + 1..]
    {
      pending := pending[..i] + pending[i + 1..];
    }

    /** Carries out the oldest change; on failure it stays queued and nothing else changes. */
    method ApplyFirst() returns (ok: bool)
      requires Valid() && pending != []
      modifies this`pending, this`registered, this`kernel, this`refusals
      ensures Valid() && (ok <==> refusals == old(refusals)) && old(refusals) <= refusals
      ensures ok ==> pending == old(pending)[1..]
      ensures !ok ==> pending == old(pending) && registered == old(registered)
    {
      hide Distinct;
      var Change(c, events) := pending[0];
      assert old(Agrees(c));
      ok := true;
      if c in live && events != Of(registered, c) {
        if events == {ET} {
          if Of(registered, c) != {} {
            var status := Ctl(DEL, c, {});
            ok := status.Done? || status.NoEntry?;
            if ok { registered := registered[c := {}]; }
          }
        } else {
          var status: Status;
          if Of(registered, c) == {} {
            status := Ctl(ADD, c, events);
          } else {
            status := Ctl(MOD, c, events);
            // The cache mirrors the kernel, so the entry cannot be missing and the fallback to ADD is dead.
            if status.NoEntry? { assert false; }
          }
          ok := status.Done?;
          if ok { registered := registered[c := events]; }
        }
      }
      if ok {
        Erase(0);
        Erased(0);
      } else {
        forall d: Controller ensures Agrees(d) { assert old(Agrees(d)); }
      }
    }

    /**
     Carries out the queued changes in order, and fails exactly when the kernel refuses one.  Success leaves
     every live controller at the mask last asked for, ET alone meaning none; a failure keeps the changes
     that were not carried out, in order, for the next try.
     */
    method Flush() returns (ok: bool)
      requires Valid()
      modifies this`pending, this`registered, this`kernel, this`refusals
      ensures Valid() && (ok <==> refusals == old(refusals))
      ensures ok ==>
        pending == [] && forall c: Controller :: c in live ==>
          Of(kernel, c) == if Of(requested, c) == {ET} then {} else Of(requested, c)
      ensures !ok ==> exists k :: 0 <= k < |old(pending)| && pending == old(pending)[k..]
    {
      hide Distinct;
      ghost var k := 0;
      ok := true;
      while pending != []
        invariant Valid() && k <= |old(pending)| && pending == old(pending)[k..] && ok && refusals == old(refusals)
        decreases |pending|
      {
        ok := ApplyFirst();
        if !ok {
          return;
        }
        k := k + 1;
      }
      forall c: Controller | c in live ensures Of(kernel, c) == Norm(Of(requested, c)) {
        assert Agrees(c);
      }
    }

    /** The controller's change is in the queue, at its old place or at the end. */
    twostate lemma Queued(change: Change)
      requires old(Valid()) && ET in change.events && change.controller in live && live == old(live)
      requires registered == old(registered) && kernel == old(kernel) && requested == old(requested)[change.controller := change.events]
      requires
        || (!IsPending(old(pending), change.controller) && pending == old(pending) + [change])
        || exists i :: 0 <= i < |old(pending)| && old(pending)[i].controller == change.controller && pending == old(pending)[i := change]
      ensures Valid()
    {
      forall d: Controller ensures Agrees(d) {
        assert old(Agrees(d));
        if IsPending(old(pending), d) {
          var k :| 0 <= k < |old(pending)| && old(pending)[k].controller == d;
          assert pending[k].controller == d;
        }
        if !IsPending(old(pending), change.controller) {
          assert pending[|old(pending)|].controller == change.controller;
        }
      }
    }

    twostate lemma NothingQueued(change: Change)
      requires old(Valid()) && ET in change.events && !IsPending(pending, change.controller) && change.events == Of(registered, change.controller)
      requires pending == old(pending) && live == old(live) && registered == old(registered) && kernel == old(kernel)
      requires requested == old(requested)[change.controller := change.events]
      ensures Valid()
    {
      forall d: Controller ensures Agrees(d) { assert old(Agrees(d)); }
    }

    /** The pending change dies with the descriptor, whose registration the kernel drops. */
    method Close(c: Controller)
      requires Valid()
      modifies this
      ensures Valid() && requested == old(requested) && live == old(live) - {c}
      ensures c in old(live) ==> !IsPending(pending, c) && Of(kernel, c) == {} && pending == Without(old(pending), c)
      ensures c !in old(live) ==> unchanged(this)
      ensures forall d: Controller :: d != c ==>
        Of(kernel, d) == Of(old(kernel), d) && (IsPending(pending, d) <==> IsPending(old(pending), d))
    {
      if c !in live {
        return;
      }
      var index := FindPending(c);
      if index < |pending| {
        Erase(index);
      }
      live, registered, kernel := live - {c}, registered[c := {}], kernel[c := {}];
      Forgotten(c);
    }

    /**
     Queues a change in place of the controller's earlier one.  A request already in force cancels the
     entry, one already queued changes nothing, and any other change that fills the queue flushes it.
     */
    method Apply(c: Controller, events: Mask) returns (ok: bool)
      requires Valid() && ET in events
      modifies this`pending, this`registered, this`kernel, this`requested, this`refusals
      ensures Valid()
      ensures c !in live ==> !ok && pending == old(pending) && requested == old(requested) && refusals == old(refusals)
      ensures c in live ==> requested == old(requested)[c := events] && (ok <==> refusals == old(refusals))
      ensures c in live && events == old(Of(registered, c)) ==> pending == Without(old(pending), c) && kernel == old(kernel) && ok
      ensures c in live && events != old(Of(registered, c)) ==>
        var queue := Requeued(old(pending), Change(c, events));
        if queue == old(pending) || |queue| < BATCH_THRESHOLD then pending == queue && kernel == old(kernel) && ok
        else if ok then pending == []
        else exists k :: 0 <= k < |queue| && pending == queue[k..]
    {
      if c !in live {
        return false;
      }
      assert old(Agrees(c));
      var index := FindPending(c);
      requested := requested[c := events];
      if index < |pending| {
        if events == Of(registered, c) {
          Erase(index);
          Erased(index);
          return true;
        }
        if pending[index].events == events {
          assert pending[index := Change(c, events)] == pending;
          Queued(Change(c, events));
          return true;
        }
        pending := pending[index := Change(c, events)];
        assert pending[index] != old(pending)[index];
      } else {
        if events == Of(registered, c) {
          NothingQueued(Change(c, events));
          return true;
        }
        pending := pending + [Change(c, events)];
      }
      Queued(Change(c, events));
      ok := true;
      if |pending| >= BATCH_THRESHOLD {
        ok := Flush();
      }
    }

    /** No entry of `c` is left and the other entries are there in order. */
    twostate lemma Forgotten(c: Controller)
      requires old(Valid()) && live == old(live) - {c} && requested == old(requested)
      requires registered == old(registered)[c := {}] && kernel == old(kernel)[c := {}]
      requires
        || (!IsPending(old(pending), c) && pending == old(pending))
        || exists i :: 0 <= i < |old(pending)| && old(pending)[i].controller == c && pending == old(pending)[..i] + old(pending)[i + 1..]
      ensures Valid() && !IsPending(pending, c)
      ensures forall d: Controller :: d != c ==> (IsPending(pending, d) <==> IsPending(old(pending), d))
    {
      forall d: Controller
        ensures Agrees(d) && (d != c ==> (IsPending(pending, d) <==> IsPending(old(pending), d)))
      {
        assert old(Agrees(d));
        if d != c && IsPending(old(pending), d) {
          var k :| 0 <= k < |old(pending)| && old(pending)[k].controller == d;
          assert IsPending(pending, d) by {
            if pending == old(pending) {
            } else {
              var i :| 0 <= i < |old(pending)| && old(pending)[i].controller == c && pending == old(pending)[..i] + old(pending)[i + 1..];
              assert pending[if k < i then k else k - 1].controller == d;
            }
          }
        }
      }
    }
  }
}
