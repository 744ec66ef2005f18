/**
 An awaitable driven by a user state machine.  The machine is any record of functions over any
 state, the kernel's answers are nondeterministic, and a history of calls records what the machine
 was asked and told.
 */
module AwaitableMachine {
  import opened Wrappers

  datatype IOError = ParamInvalid | TimedOut | NotReady | NotOnScheduler | Other(code: nat)

  /** Bytes transferred; a connect reports 0 when it succeeds. */
  type IoResult = Result<nat, IOError>

  datatype Kind = Recv | Readv | Send | Writev | Connect

  datatype Direction = ForRead | ForWrite | ForConnect

  datatype Buffer = Null | At(address: nat)

  function DirectionOf(kind: Kind): Direction {
    match kind
    case Recv => ForRead
    case Readv => ForRead
    case Send => ForWrite
    case Writev => ForWrite
    case Connect => ForConnect
  }

  /** What `advance` asks for; a connect has a host instead of a buffer and a length. */
  datatype Action<+R> =
    | Continue
    | Wait(kind: Kind, buffer: Buffer, length: nat)
    | Complete(result: Option<R>)
    | Fail(error: Option<IOError>)

  /** A machine without a connect callback has none. */
  datatype Machine<!S, !R> = Machine(
    advance: S -> (S, Action<R>),
    onRead: (S, IoResult) -> S,
    onWrite: (S, IoResult) -> S,
    onConnect: Option<(S, IoResult) -> S>)

  function Deliver<S, R>(m: Machine<S, R>, s: S, d: Direction, r: IoResult): S {
    match d
    case ForRead => m.onRead(s, r)
    case ForWrite => m.onWrite(s, r)
    case ForConnect => if m.onConnect.Some? then m.onConnect.value(s, r) else s
  }

  /** A wait that is refused: there are bytes to move and no buffer. */
  predicate Refused(kind: Kind, buffer: Buffer, length: nat) {
    kind != Connect && buffer.Null? && length != 0
  }

  /** A wait for nothing, answered on the spot. */
  predicate Trivial(kind: Kind, length: nat) {
    kind != Connect && length == 0
  }

  datatype Outcome<+R> = Value(value: R) | Error(error: IOError)

  // ---- the history of calls and the protocol they must follow ------------------------------------

  /** `inline` marks the answer to a trivial wait. */
  datatype Event<+R> =
    | Advanced(action: Action<R>)
    | Answered(direction: Direction, result: IoResult, inline: bool)

  datatype Phase<+R> =
    | Idle
    | Outstanding(kind: Kind, trivial: bool)
    | Ended(outcome: Outcome<R>)
    | Broken

  datatype Replay<+S, +R> = Replay(state: S, phase: Phase<R>)

  /** The phase that an action of the machine leads to. */
  function PhaseAfter<R>(a: Action<R>): Phase<R> {
    match a
    case Continue => Idle
    case Wait(kind, buffer, length) =>
      if Refused(kind, buffer, length) then Ended(Error(ParamInvalid))
      else Outstanding(kind, Trivial(kind, length))
    case Complete(result) => Ended(if result.Some? then Value(result.value) else Error(ParamInvalid))
    case Fail(error) => Ended(Error(if error.Some? then error.value else ParamInvalid))
  }

  /** One call.  Out of turn, in the wrong direction or with another action than the machine's: broken. */
  ghost function ReplayStep<S, R>(m: Machine<S, R>, rp: Replay<S, R>, e: Event<R>): Replay<S, R> {
    match e
    case Advanced(a) =>
      var (next, action) := m.advance(rp.state);
      Replay(next, if rp.phase.Idle? && a == action then PhaseAfter(a) else Broken)
    case Answered(d, r, inline) =>
      Replay(Deliver(m, rp.state, d, r),
             if rp.phase.Outstanding? && DirectionOf(rp.phase.kind) == d && rp.phase.trivial == inline
                && (inline ==> r == Ok(0)) then Idle else Broken)
  }

  ghost function ReplayOf<S, R>(m: Machine<S, R>, start: S, log: seq<Event<R>>): Replay<S, R> {
    if log == [] then Replay(start, Idle)
    else ReplayStep(m, ReplayOf(m, start, log[..|log| - 1]), log[|log| - 1])
  }

  function Advances<R>(log: seq<Event<R>>): nat {
    if log == [] then 0
    else Advances(log[..|log| - 1]) + if log[|log| - 1].Advanced? then 1 else 0
  }

  /** The answers that came from the kernel or from a timeout. */
  function Answers<R>(log: seq<Event<R>>): seq<IoResult> {
    if log == [] then []
    else
      var last := log[|log| - 1];
      Answers(log[..|log| - 1]) + if last.Answered? && !last.inline then [last.result] else []
  }

  lemma Extend<S, R>(m: Machine<S, R>, start: S, log: seq<Event<R>>, e: Event<R>)
    ensures ReplayOf(m, start, log + [e]) == ReplayStep(m, ReplayOf(m, start, log), e)
    ensures Advances(log + [e]) == Advances(log) + if e.Advanced? then 1 else 0
    ensures Answers(log + [e]) == Answers(log) + if e.Answered? && !e.inline then [e.result] else []
  {
    assert (log + [e])[..|log|] == log;
  }

  /** Once a call is out of turn the whole history is. */
  lemma {:induction false} BrokenStays<S, R>(m: Machine<S, R>, start: S, log: seq<Event<R>>, k: nat)
    requires k <= |log| && ReplayOf(m, start, log[..k]).phase.Broken?
    ensures ReplayOf(m, start, log).phase.Broken?
    decreases |log| - k
  {
    hide ReplayOf, Advances, Answers;
    if k < |log| {
      assert log[..k + 1] == log[..k] + [log[k]];
      Extend(m, start, log[..k], log[k]);
      BrokenStays(m, start, log, k + 1);
    } else {
      assert log[..k] == log;
    }
  }

  /**
   The call protocol read off an unbroken history: `advance` is called only when nothing is
   outstanding, and an answer follows directly the wait it belongs to, in that wait's direction, so
   no wait has two answers.
   */
  lemma {:induction false} CallProtocol<S, R>(m: Machine<S, R>, start: S, log: seq<Event<R>>, k: nat)
    requires k < |log| && !ReplayOf(m, start, log).phase.Broken?
    ensures log[k].Advanced? ==>
      log[k].action == m.advance(ReplayOf(m, start, log[..k]).state).1
      && (k > 0 ==> log[k - 1].Answered? || log[k - 1].action.Continue?)
    ensures log[k].Answered? ==>
      k > 0 && log[k - 1].Advanced? && log[k - 1].action.Wait?
      && DirectionOf(log[k - 1].action.kind) == log[k].direction
      && log[k].inline == Trivial(log[k - 1].action.kind, log[k - 1].action.length)
      && (log[k].inline ==> log[k].result == Ok(0))
  {
    hide ReplayOf;
    CallAt(m, start, log, k);
    if k > 0 {
      CallAt(m, start, log, k - 1);
    } else {
      BeforeAnyCall(m, start, log);
    }
  }

  lemma CallAt<S, R>(m: Machine<S, R>, start: S, log: seq<Event<R>>, k: nat)
    requires k < |log| && !ReplayOf(m, start, log).phase.Broken?
    ensures ReplayOf(m, start, log[..k + 1]) == ReplayStep(m, ReplayOf(m, start, log[..k]), log[k])
    ensures !ReplayOf(m, start, log[..k + 1]).phase.Broken?
  {
    hide ReplayOf, ReplayStep, Advances, Answers;
    if ReplayOf(m, start, log[..k + 1]).phase.Broken? {
      BrokenStays(m, start, log, k + 1);
    }
    assert log[..k + 1] == log[..k] + [log[k]];
    Extend(m, start, log[..k], log[k]);
  }

  lemma BeforeAnyCall<S, R>(m: Machine<S, R>, start: S, log: seq<Event<R>>)
    ensures ReplayOf(m, start, log[..0]).phase == Idle
  {
  }

  // ---- the awaitable ---------------------------------------------------------------------------

  const INLINE_TRANSITION_CAP: nat := 64

  /** The machine makes `n` transitions in a row without a real wait and without an outcome. */
  predicate Spins<S, R>(m: Machine<S, R>, s: S, n: nat)
  {
    n == 0 ||
    var (next, action) := m.advance(s);
    (action.Continue? && Spins(m, next, n - 1)) ||
    (action.Wait? && Trivial(action.kind, action.length) &&
     Spins(m, Deliver(m, next, DirectionOf(action.kind), Ok(0)), n - 1))
  }

  lemma SpinsNothing<S, R>(m: Machine<S, R>, s: S)
    ensures Spins(m, s, 0)
  {
  }

  /** At some point of the history, not before position `from`, the machine was about to spin up to the cap. */
  ghost predicate SpunSince<S, R>(m: Machine<S, R>, start: S, log: seq<Event<R>>, from: nat) {
    exists k :: from <= k <= |log| && Spins(m, ReplayOf(m, start, log[..k]).state, INLINE_TRANSITION_CAP)
  }

  lemma SpunHere<S, R>(m: Machine<S, R>, start: S, log: seq<Event<R>>, log': seq<Event<R>>, from: nat)
    requires log <= log' && from <= |log| && Spins(m, ReplayOf(m, start, log).state, INLINE_TRANSITION_CAP)
    ensures SpunSince(m, start, log', from)
  {
    hide Spins, ReplayOf;
    assert log'[..|log|] == log;
  }

  lemma SpunStays<S, R>(m: Machine<S, R>, start: S, log: seq<Event<R>>, log': seq<Event<R>>, from: nat, from': nat)
    requires log <= log' && from' <= from
    ensures SpunSince(m, start, log, from) ==> SpunSince(m, start, log', from')
  {
    hide Spins, ReplayOf;
    if SpunSince(m, start, log, from) {
      var k :| from <= k <= |log| && Spins(m, ReplayOf(m, start, log[..k]).state, INLINE_TRANSITION_CAP);
      assert log'[..k] == log[..k];
    }
  }

  datatype Progress = NeedWait | Completed

  /** Who decided the outcome: nobody yet, the machine, the cap, a timeout, a missing callback, or a refused suspension. */
  datatype Origin = Open | Emitted | Capped | Expired | Unanswerable | Rejected

  /** What registering with the scheduler comes to. */
  datatype Registration = Registered | ReadyAtOnce | NoScheduler | Failed

  class StateMachineAwaitable<S, R> {
    const machine: Machine<S, R>
    const start: S
    var state: S
    var hasActiveTask: bool
    var activeKind: Option<Kind>
    var result: Option<R>
    var error: Option<IOError>
    ghost var log: seq<Event<R>>
    ghost var origin: Origin
    ghost var burst: nat    // IO results taken inline by the latest call

    ghost predicate Valid()
      reads this
    {
      && ReplayOf(machine, start, log).state == state
      && Sound(ReplayOf(machine, start, log).phase)
      && (origin.Capped? ==> burst == INLINE_TRANSITION_CAP || SpunSince(machine, start, log, 0))
    }

    ghost predicate Sound(phase: Phase<R>)
      reads this`hasActiveTask, this`activeKind, this`result, this`error, this`origin
    {
      && !phase.Broken?
      && (hasActiveTask <==> activeKind.Some?)
      && !(result.Some? && error.Some?)
      && (origin.Open? <==> !Done())
      && (hasActiveTask ==> phase == Outstanding(activeKind.value, false))
      && (hasActiveTask ==> origin.Open? || origin.Expired? || origin.Rejected?)
      && (origin.Open? && !hasActiveTask ==> phase == Idle)
      && (origin.Emitted? ==> phase == Ended(if result.Some? then Value(result.value) else Error(error.value)))
      && (result.Some? ==> origin.Emitted?)
      && (origin.Capped? ==> error == Some(ParamInvalid))
      && (origin.Expired? ==> error == Some(TimedOut))
      && (origin.Rejected? ==> error == Some(NotReady) || error == Some(NotOnScheduler))
      && (origin.Unanswerable? ==> machine.onConnect.None?)
    }

    predicate Done()
      reads this`result, this`error
    {
      result.Some? || error.Some?
    }

    constructor (machine: Machine<S, R>, start: S)
      ensures Valid() && !Done() && !hasActiveTask && log == []
      ensures this.machine == machine && this.start == start
    {
      this.machine, this.start, state := machine, start, start;
      hasActiveTask, activeKind, result, error := false, None, None, None;
      log, origin, burst := [], Open, 0;
    }

    /**
     What becomes of each action, the machine being in `next`: a wait without a buffer is refused, one for
     nothing is answered with 0 in its direction, any other is taken up; results and errors are kept.
     */
    ghost predicate Obeyed(next: S, action: Action<R>)
      reads this
    {
      match action
      case Continue => state == next && !Done() && !hasActiveTask
      case Wait(kind, buffer, length) =>
        if kind != Connect && buffer == Null && length != 0 then
          state == next && error == Some(ParamInvalid) && result.None? && !hasActiveTask
        else if kind != Connect && length == 0 then
          !Done() && !hasActiveTask &&
          state == (if kind == Recv || kind == Readv then machine.onRead(next, Ok(0)) else machine.onWrite(next, Ok(0)))
        else state == next && !Done() && hasActiveTask && activeKind == Some(kind)
      case Complete(r) => state == next && (if r.Some? then result == r && error.None? else result.None? && error == Some(ParamInvalid))
      case Fail(e) => state == next && result.None? && error == Some(if e.Some? then e.value else ParamInvalid)
    }

    /** Asks the machine once and takes up what it asks for; None means to go on. */
    method Transition() returns (progress: Option<Progress>)
      requires Valid() && !Done() && !hasActiveTask
      modifies this`state, this`hasActiveTask, this`activeKind, this`result, this`error, this`log, this`origin
      ensures Valid()
      ensures old(log) <= log && Advances(log) == Advances(old(log)) + 1 && Answers(log) == Answers(old(log))
      ensures origin.Open? || origin.Emitted?
      ensures progress == Some(Completed) <==> Done()
      ensures progress == Some(NeedWait) <==> hasActiveTask
      ensures Obeyed(machine.advance(old(state)).0, machine.advance(old(state)).1)
      ensures progress.Some? ==> forall n: nat :: n > 0 ==> !Spins(machine, old(state), n)
      ensures progress.None? ==>
        forall n: nat :: n > 0 ==> (Spins(machine, old(state), n) <==> Spins(machine, state, n - 1))
    {
      hide ReplayOf, Answers, Advances, SpunSince;
      progress := Some(Completed);
      var (next, action) := machine.advance(state);
      Extend(machine, start, log, Advanced(action));
      state, log := next, log + [Advanced(action)];
      match action
      case Continue =>
        progress := None;
      case Wait(kind, buffer, length) =>
        if Refused(kind, buffer, length) {
          error, origin := Some(ParamInvalid), Emitted;
        } else if Trivial(kind, length) {
          Extend(machine, start, log, Answered(DirectionOf(kind), Ok(0), true));
          state := Deliver(machine, state, DirectionOf(kind), Ok(0));
          log := log + [Answered(DirectionOf(kind), Ok(0), true)];
          progress := None;
        } else {
          hasActiveTask, activeKind := true, Some(kind);
          progress := Some(NeedWait);
        }
      case Complete(r) =>
        if r.None? {
          error := Some(ParamInvalid);
        } else {
          result := r;
        }
        origin := Emitted;
      case Fail(e) =>
        error, origin := Some(if e.Some? then e.value else ParamInvalid), Emitted;
    }

    /** The end of a capped loop. */
    method GiveUp()
      requires Valid() && result.None? && (burst == INLINE_TRANSITION_CAP || SpunSince(machine, start, log, 0))
      modifies this`error, this`origin, this`hasActiveTask, this`activeKind
      ensures Valid() && error == Some(ParamInvalid) && origin == Capped && !hasActiveTask
    {
      hide Spins, SpunSince, ReplayOf;
      error, origin := Some(ParamInvalid), Capped;
      hasActiveTask, activeKind := false, None;
    }

    /**
     Drives the machine until it waits or ends, at most 64 transitions.  The cap is reached exactly
     when the machine spins for all 64.
     */
    method Pump() returns (progress: Progress)
      requires Valid()
      modifies this`state, this`hasActiveTask, this`activeKind, this`result, this`error, this`log, this`origin
      ensures Valid()
      ensures progress.Completed? <==> Done()
      ensures progress.NeedWait? ==> hasActiveTask && origin.Open?
      ensures old(Done()) || old(hasActiveTask) ==> unchanged(this)
      ensures old(log) <= log && Advances(log) <= Advances(old(log)) + INLINE_TRANSITION_CAP
      ensures Answers(log) == Answers(old(log))
      ensures old(origin).Open? && !old(hasActiveTask) ==>
        (origin.Capped? <==> Spins(machine, old(state), INLINE_TRANSITION_CAP))
      ensures old(origin).Open? && !old(hasActiveTask) ==> Advances(log) > Advances(old(log))
      ensures old(origin).Open? ==> origin.Open? || origin.Emitted? || origin.Capped?
    {
      hide Answers, Advances, ReplayOf, Spins, SpunSince;
      var i := 0;
      while i < INLINE_TRANSITION_CAP
        invariant i <= INLINE_TRANSITION_CAP && Valid()
        invariant i == 0 ==> unchanged(this)
        invariant i > 0 ==> old(origin).Open? && !old(hasActiveTask) && origin.Open? && !hasActiveTask
        invariant old(log) <= log && Advances(log) == Advances(old(log)) + i
        invariant Answers(log) == Answers(old(log))
        invariant Spins(machine, old(state), INLINE_TRANSITION_CAP) <==> Spins(machine, state, INLINE_TRANSITION_CAP - i)
      {
        if result.Some? || error.Some? {
          return Completed;
        }
        if hasActiveTask {
          return NeedWait;
        }
        var step := Transition();
        if step.Some? {
          return step.value;
        }
        i := i + 1;
      }
      SpinsNothing(machine, state);
      SpunHere(machine, start, old(log), log, 0);
      GiveUp();
      return Completed;
    }

    /** Gives the outstanding wait its one answer; a connect that nobody handles ends the run. */
    method Answer(r: IoResult)
      requires Valid() && hasActiveTask
      modifies this`state, this`hasActiveTask, this`activeKind, this`error, this`log, this`origin
      ensures Valid() && !hasActiveTask
      ensures activeKind.None?
      ensures old(activeKind) == Some(Connect) && machine.onConnect.None? ==>
        log == old(log) && state == old(state) && error == Some(if r.Err? then r.error else ParamInvalid)
        && origin == Unanswerable
      ensures !(old(activeKind) == Some(Connect) && machine.onConnect.None?) ==>
        && log == old(log) + [Answered(DirectionOf(old(activeKind).value), r, false)]
        && Answers(log) == Answers(old(log)) + [r]
        && state == Deliver(machine, old(state), DirectionOf(old(activeKind).value), r)
        && state == (match old(activeKind).value
                     case Recv => machine.onRead(old(state), r)
                     case Readv => machine.onRead(old(state), r)
                     case Send => machine.onWrite(old(state), r)
                     case Writev => machine.onWrite(old(state), r)
                     case Connect => machine.onConnect.value(old(state), r))
        && error == old(error) && origin == old(origin)
      ensures Advances(log) == Advances(old(log))
    {
      hide ReplayOf, Answers, Advances, SpunSince;
      var kind := activeKind.value;
      hasActiveTask, activeKind := false, None;
      if kind == Connect && machine.onConnect.None? {
        error, origin := Some(if r.Err? then r.error else ParamInvalid), Unanswerable;
      } else {
        Extend(machine, start, log, Answered(DirectionOf(kind), r, false));
        state := Deliver(machine, state, DirectionOf(kind), r);
        log := log + [Answered(DirectionOf(kind), r, false)];
      }
    }

    /**
     Pumps and completes IO inline until an IO is not ready or there is an outcome.  `io` is what the
     kernel has ready, in order, and `used` how much of it was taken.  Never more than 64 * 64
     questions to the machine, whatever it does and whatever the kernel has; the sixty-fourth inline
     IO ends the run.
     */
    method PrepareForSubmit(io: seq<IoResult>) returns (progress: Progress, used: nat)
      requires Valid()
      modifies this
      ensures Valid()
      ensures progress.Completed? <==> Done()
      ensures progress.NeedWait? ==> hasActiveTask && !Done() && used == |io|
      ensures progress.Completed? ==> result.Some? != error.Some?
      ensures old(Done()) ==> unchanged(this)
      ensures old(log) <= log && used <= |io|
      ensures machine.onConnect.Some? ==> Answers(log) == Answers(old(log)) + io[..used]
      ensures used <= INLINE_TRANSITION_CAP && (used == INLINE_TRANSITION_CAP ==> error == Some(ParamInvalid))
      ensures Advances(log) <= Advances(old(log)) + INLINE_TRANSITION_CAP * INLINE_TRANSITION_CAP
      ensures old(origin).Open? ==> Driven(old(log), used) && burst == used
    {
      hide Answers, Advances, ReplayOf, Sound, Spins, SpunSince;
      if result.Some? || error.Some? {
        AtMostOneOutcome();
        OpenUntilDone();
        return Completed, 0;
      }
      OpenUntilDone();
      used, burst := 0, 0;
      while used < INLINE_TRANSITION_CAP
        invariant used <= INLINE_TRANSITION_CAP && used <= |io| && Valid()
        invariant result.None? && burst == used && !old(Done())
        invariant origin.Open? || (origin.Unanswerable? && machine.onConnect.None?)
        invariant machine.onConnect.Some? ==> Answers(log) == Answers(old(log)) + io[..used]
        invariant old(log) <= log && Advances(log) <= Advances(old(log)) + INLINE_TRANSITION_CAP * used
      {
        ghost var at, was := log, state;
        assert was == ReplayOf(machine, start, at).state;
        OpenUntilDone();
        progress := Pump();
        if progress.Completed? {
          AtMostOneOutcome();
          OpenUntilDone();
          if origin.Capped? { SpunHere(machine, start, at, log, |old(log)|); }
          return;
        }
        if used == |io| {
          return;
        }
        Answer(io[used]);
        assert io[..used + 1] == io[..used] + [io[used]];
        used, burst := used + 1, burst + 1;
      }
      GiveUp();
      progress := Completed;
    }

    /** How a call that started without an outcome may end: the cap needs 64 inline results or a spinning machine. */
    ghost predicate Driven(before: seq<Event<R>>, used: nat)
      reads this
    {
      && (origin.Open? || origin.Emitted? || origin.Capped? || (origin.Unanswerable? && machine.onConnect.None?))
      && (origin.Open? ==> hasActiveTask)
      && (origin.Capped? ==> used == INLINE_TRANSITION_CAP || SpunSince(machine, start, log, |before|))
      && (used == INLINE_TRANSITION_CAP ==> origin.Capped?)
    }

    lemma OpenUntilDone()
      requires Valid()
      ensures origin.Open? <==> !Done()
    {
    }

    /**
     Suspension of a coroutine whose `await_ready` was false: the slots are claimed or not, and the
     scheduler takes the registration or not.
     */
    method Suspend(claimed: bool, io: seq<IoResult>, registration: Registration) returns (suspended: bool)
      requires Valid() && !Done()
      modifies this
      ensures Valid() && old(log) <= log
      ensures suspended ==> hasActiveTask && !Done()
      ensures !claimed ==> !suspended && error == Some(NotReady) && log == old(log)
      ensures suspended ==> registration.Registered?
      ensures origin.Rejected? <==> !claimed || (hasActiveTask && (registration.NoScheduler? || registration.Failed?))
      ensures claimed && origin.Rejected? ==> error == Some(if registration.NoScheduler? then NotOnScheduler else NotReady)
      ensures claimed && !origin.Rejected? ==> Driven(old(log), burst)
      ensures suspended && machine.onConnect.Some? ==> Answers(log) == Answers(old(log)) + io
      ensures !suspended && !registration.ReadyAtOnce? ==> Done()
      ensures Advances(log) <= Advances(old(log)) + INLINE_TRANSITION_CAP * INLINE_TRANSITION_CAP
    {
      hide Answers, Advances, ReplayOf, Spins, SpunSince;
      suspended := false;
      if !claimed {
        error, origin := Some(NotReady), Rejected;
        return;
      }
      var progress, used := PrepareForSubmit(io);
      if progress.NeedWait? {
        match registration
        case Registered => suspended := true;
        case ReadyAtOnce =>
        case NoScheduler => error, origin := Some(NotOnScheduler), Rejected;
        case Failed => error, origin := Some(NotReady), Rejected;
      }
    }

    /** A readiness event: the first ready result answers the active wait, and the rest may be used inline. */
    method OnActiveEvent(io: seq<IoResult>) returns (progress: Progress)
      requires Valid()
      modifies this
      ensures Valid()
      ensures progress.Completed? ==> result.Some? != error.Some?
      ensures progress.NeedWait? ==> hasActiveTask && result.None? && error == (if old(hasActiveTask) then old(error) else None)
      ensures old(result).Some? ==> unchanged(this)
      ensures old(origin).Open? && !(old(hasActiveTask) && io == []) ==> Driven(old(log), burst) && burst <= |io|
      ensures old(hasActiveTask) && io == [] ==> progress.NeedWait? && unchanged(this)
      ensures old(hasActiveTask) && io != [] && machine.onConnect.Some? ==>
        old(log) + [Answered(DirectionOf(old(activeKind).value), io[0], false)] <= log
      ensures progress.NeedWait? && machine.onConnect.Some? ==> Answers(log) == Answers(old(log)) + io
      ensures old(log) <= log
      ensures Advances(log) <= Advances(old(log)) + INLINE_TRANSITION_CAP * INLINE_TRANSITION_CAP
    {
      hide Answers, Advances, ReplayOf, Spins, SpunSince;
      var used: nat;
      if hasActiveTask {
        if io == [] {
          return NeedWait;
        }
        burst := 0;
        Answer(io[0]);
        progress, used := PrepareForSubmit(io[1..]);
        SpunStays(machine, start, log, log, |old(log)| + 1, |old(log)|);
        assert io == [io[0]] + io[1..];
      } else {
        progress, used := PrepareForSubmit(io);
      }
    }

    /** The machine's state after an active wait, if any, was answered with the timeout. */
    ghost function AfterTimeout(active: Option<Kind>, s: S): S {
      if active.Some? then Deliver(machine, s, DirectionOf(active.value), Err(TimedOut)) else s
    }

    /**
     The timeout is handled: the outstanding wait is answered with it, the machine may still decide,
     and only if it does not is the outcome the timeout.  An outcome that was there stays.
     */
    method MarkTimeout()
      requires Valid()
      modifies this
      ensures Valid() && Done() && result.Some? != error.Some?
      ensures old(result).Some? ==> unchanged(this)
      ensures old(Done()) && !old(hasActiveTask) ==> unchanged(this)
      ensures old(activeKind) == Some(Connect) && machine.onConnect.None? ==> error == Some(TimedOut)
      ensures !(origin.Emitted? || origin.Capped?) ==> error == Some(TimedOut) || old(Done())
      ensures old(origin).Open? ==> origin.Emitted? || origin.Capped? || origin.Expired? || machine.onConnect.None?
      ensures old(origin).Open? && origin.Expired? ==> hasActiveTask && Advances(log) > Advances(old(log))
      ensures old(origin).Open? && !(old(activeKind) == Some(Connect) && machine.onConnect.None?) ==>
        (origin.Capped? <==> Spins(machine, AfterTimeout(old(activeKind), old(state)), INLINE_TRANSITION_CAP))
      ensures old(hasActiveTask) && machine.onConnect.Some? ==>
        old(log) + [Answered(DirectionOf(old(activeKind).value), Err(TimedOut), false)] <= log
        && Answers(log) == Answers(old(log)) + [Err(TimedOut)]
      ensures old(log) <= log && Advances(log) <= Advances(old(log)) + INLINE_TRANSITION_CAP
    {
      hide Answers, Advances, ReplayOf, Spins, SpunSince;
      if hasActiveTask {
        Answer(Err(TimedOut));
      }
      var _ := Pump();
      if result.None? && error.None? {
        error, origin := Some(TimedOut), Expired;
      }
    }

    lemma AtMostOneOutcome()
      requires Valid()
      ensures !(result.Some? && error.Some?)
    {
    }
  }
}
