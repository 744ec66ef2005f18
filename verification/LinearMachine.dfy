/**
 The linear machine that the awaitable builder produces, a simple reference interpreter of the
 same node lists, and the refinement between the two.  Handlers are arbitrary functions on the
 flow; `calls` records which handler ran with which IO result.
 */
module LinearMachine {
  import opened Wrappers
  import opened AwaitableMachine
  import Domains

  /** What a handler left behind: a result, a failure, or queued work it is not allowed to leave. */
  datatype Ops<+R> = Ops(result: Option<R>, failure: Option<IOError>, queued: bool)

  datatype Status = NeedMore | Again | Parsed

  datatype Node<!F, !R> =
    | Io(kind: Kind, buffer: Buffer, length: nat, onIo: (F, IoResult) -> (F, Ops<R>))
    | Parse(onParse: F -> (F, Ops<R>, Status), rearm: Option<nat>)
    | Local(run: F -> (F, Ops<R>))
    | Finish(run: F -> (F, Ops<R>))
  {
    predicate Receives() { Io? && (kind == Recv || kind == Readv) }
  }

  /** `carry` embeds an IO error into the result type when that type can hold one. */
  datatype Program<!F, !R> = Program(nodes: seq<Node<F, R>>, carry: Option<IOError -> R>)

  datatype Call = Call(node: nat, result: Option<IoResult>)

  function Verdict<R>(ops: Ops<R>): Option<Outcome<R>> {
    if ops.result.Some? then Some(Value(ops.result.value))
    else if ops.failure.Some? then Some(Error(ops.failure.value))
    else if ops.queued then Some(Error(ParamInvalid))
    else None
  }

  /** An outcome as the awaiting coroutine sees it. */
  function Seen<F, R>(p: Program<F, R>, o: Outcome<R>): Outcome<R> {
    if o.Error? && p.carry.Some? then Value(p.carry.value(o.error)) else o
  }

  // ---- the machine -----------------------------------------------------------------------------

  datatype Pending = Pending(kind: Kind, index: nat)

  datatype LinearState<F, R> = LinearState(
    flow: F,
    cursor: nat,
    pending: Option<Pending>,
    result: Option<R>,
    error: Option<IOError>,
    calls: seq<Call>)

  function Begin<F, R>(flow: F): LinearState<F, R> {
    LinearState(flow, 0, None, None, None, [])
  }

  function SetError<F, R>(p: Program<F, R>, s: LinearState<F, R>, e: IOError): LinearState<F, R> {
    if p.carry.Some? then s.(result := Some(p.carry.value(e))) else s.(error := Some(e))
  }

  function SetOutcome<F, R>(p: Program<F, R>, s: LinearState<F, R>, o: Outcome<R>): LinearState<F, R> {
    match o
    case Value(r) => s.(result := Some(r))
    case Error(e) => SetError(p, s, e)
  }

  function Emit<F, R>(s: LinearState<F, R>): Action<R> {
    if s.result.Some? then Complete(s.result) else if s.error.Some? then Fail(s.error) else Continue
  }

  function Called<F, R>(s: LinearState<F, R>, flow: F, arg: Option<IoResult>, node: nat): LinearState<F, R> {
    s.(flow := flow, calls := s.calls + [Call(node, arg)])
  }

  function RunLocal<F, R>(p: Program<F, R>, s: LinearState<F, R>, run: F -> (F, Ops<R>)): (LinearState<F, R>, Action<R>) {
    var (flow, ops) := run(s.flow);
    var ran := Called(s, flow, None, s.cursor);
    match Verdict(ops)
    case Some(o) => var ended := SetOutcome(p, ran, o); (ended, Emit(ended))
    case None => (ran.(cursor := s.cursor + 1), Continue)
  }

  function RunParse<F, R>(p: Program<F, R>, s: LinearState<F, R>, onParse: F -> (F, Ops<R>, Status), rearm: Option<nat>)
    : (LinearState<F, R>, Action<R>)
  {
    var (flow, ops, status) := onParse(s.flow);
    var ran := Called(s, flow, None, s.cursor);
    match Verdict(ops)
    case Some(o) => var ended := SetOutcome(p, ran, o); (ended, Emit(ended))
    case None =>
      match status
      case NeedMore =>
        if rearm.None? || rearm.value >= |p.nodes| || !p.nodes[rearm.value].Receives() then
          var ended := SetError(p, ran, ParamInvalid);
          (ended, Emit(ended))
        else (ran.(cursor := rearm.value), Continue)
      case Again => (ran, Continue)
      case Parsed => (ran.(cursor := s.cursor + 1), Continue)
  }

  function Advance<F, R>(p: Program<F, R>, s: LinearState<F, R>): (LinearState<F, R>, Action<R>) {
    if s.result.Some? || s.error.Some? then (s, Emit(s))
    else if s.cursor >= |p.nodes| then
      var ended := SetError(p, s, NotReady);
      (ended, Emit(ended))
    else
      match p.nodes[s.cursor]
      case Io(kind, buffer, length, _) =>
        (s.(pending := Some(Pending(kind, s.cursor))), Wait(kind, buffer, length))
      case Parse(onParse, rearm) => RunParse(p, s, onParse, rearm)
      case Local(run) => RunLocal(p, s, run)
      case Finish(run) => RunLocal(p, s, run)
  }

  /** onRead, onWrite and onConnect: an answer that nobody waits for is an error. */
  function OnAnswer<F, R>(p: Program<F, R>, s: LinearState<F, R>, d: Direction, r: IoResult): LinearState<F, R> {
    if s.pending.None? || DirectionOf(s.pending.value.kind) != d || s.pending.value.index >= |p.nodes|
       || !p.nodes[s.pending.value.index].Io?
    then SetError(p, s, ParamInvalid)
    else
      var (flow, ops) := p.nodes[s.pending.value.index].onIo(s.flow, r);
      var ran := Called(s, flow, Some(r), s.pending.value.index).(pending := None);
      match Verdict(ops)
      case Some(o) => SetOutcome(p, ran, o)
      case None => if r.Err? then SetError(p, ran, r.error) else ran.(cursor := s.cursor + 1)
  }

  function Linear<F, R>(p: Program<F, R>): Machine<LinearState<F, R>, R> {
    Machine(
      s => Advance(p, s),
      (s, r) => OnAnswer(p, s, ForRead, r),
      (s, r) => OnAnswer(p, s, ForWrite, r),
      Some((s, r) => OnAnswer(p, s, ForConnect, r)))
  }

  // ---- the reference interpreter ---------------------------------------------------------------

  /** The nearest receive before node `i`. */
  function NearestReceive<F, R>(nodes: seq<Node<F, R>>, i: nat): (j: Option<nat>)
    requires i <= |nodes|
    ensures j.Some? ==> j.value < i && nodes[j.value].Receives()
    ensures forall k :: (if j.Some? then j.value + 1 else 0) <= k < i ==> !nodes[k].Receives()
  {
    if i == 0 then None else if nodes[i - 1].Receives() then Some(i - 1) else NearestReceive(nodes, i - 1)
  }

  datatype Config<F, R> = Config(flow: F, cursor: nat, calls: seq<Call>, used: nat, done: Option<Outcome<R>>)

  function Settle<F, R>(c: Config<F, R>, o: Outcome<R>): Config<F, R> { c.(done := Some(o)) }

  function RefIo<F, R>(c: Config<F, R>, onIo: (F, IoResult) -> (F, Ops<R>), r: IoResult): Config<F, R> {
    var (flow, ops) := onIo(c.flow, r);
    var ran := c.(flow := flow, calls := c.calls + [Call(c.cursor, Some(r))]);
    match Verdict(ops)
    case Some(o) => Settle(ran, o)
    case None => if r.Err? then Settle(ran, Error(r.error)) else ran.(cursor := c.cursor + 1)
  }

  function RefLocal<F, R>(c: Config<F, R>, run: F -> (F, Ops<R>)): Config<F, R> {
    var (flow, ops) := run(c.flow);
    var ran := c.(flow := flow, calls := c.calls + [Call(c.cursor, None)]);
    match Verdict(ops)
    case Some(o) => Settle(ran, o)
    case None => ran.(cursor := c.cursor + 1)
  }

  function RefParse<F, R>(nodes: seq<Node<F, R>>, c: Config<F, R>, onParse: F -> (F, Ops<R>, Status)): Config<F, R>
    requires c.cursor <= |nodes|
  {
    var (flow, ops, status) := onParse(c.flow);
    var ran := c.(flow := flow, calls := c.calls + [Call(c.cursor, None)]);
    match Verdict(ops)
    case Some(o) => Settle(ran, o)
    case None =>
      match status
      case NeedMore =>
        var back := NearestReceive(nodes, c.cursor);
        if back.Some? then ran.(cursor := back.value) else Settle(ran, Error(ParamInvalid))
      case Again => ran
      case Parsed => ran.(cursor := c.cursor + 1)
  }

  /** The interpreter stands at an IO whose answer has not come. */
  predicate Blocked<F, R>(p: Program<F, R>, answers: seq<IoResult>, c: Config<F, R>) {
    c.done.None? && c.cursor < |p.nodes| && c.used >= |answers| &&
    var node := p.nodes[c.cursor];
    node.Io? && !Refused(node.kind, node.buffer, node.length) && !Trivial(node.kind, node.length)
  }

  /** One node: next node, repeat, jump back to the nearest receive, or stop at the first outcome. */
  function RefStep<F, R>(p: Program<F, R>, answers: seq<IoResult>, c: Config<F, R>): Config<F, R> {
    if c.done.Some? || Blocked(p, answers, c) then c
    else if c.cursor >= |p.nodes| then Settle(c, Error(NotReady))
    else
      match p.nodes[c.cursor]
      case Io(kind, buffer, length, onIo) =>
        if Refused(kind, buffer, length) then Settle(c, Error(ParamInvalid))
        else if Trivial(kind, length) then RefIo(c, onIo, Ok(0))
        else RefIo(c.(used := c.used + 1), onIo, answers[c.used])
      case Parse(onParse, _) => RefParse(p.nodes, c, onParse)
      case Local(run) => RefLocal(c, run)
      case Finish(run) => RefLocal(c, run)
  }

  function RefRun<F, R>(p: Program<F, R>, flow: F, answers: seq<IoResult>, n: nat): Config<F, R> {
    if n == 0 then Config(flow, 0, [], 0, None)
    else RefStep(p, answers, RefRun(p, flow, answers, n - 1))
  }

  /** None of the first `n` steps waits for an answer. */
  predicate Unblocked<F, R>(p: Program<F, R>, flow: F, answers: seq<IoResult>, n: nat) {
    n == 0 || (Unblocked(p, flow, answers, n - 1) && !Blocked(p, answers, RefRun(p, flow, answers, n - 1)))
  }

  /** A later answer does not change what happened before it. */
  lemma {:induction false} MoreAnswers<F, R>(p: Program<F, R>, flow: F, answers: seq<IoResult>, more: seq<IoResult>, n: nat)
    requires Unblocked(p, flow, answers, n)
    ensures Unblocked(p, flow, answers + more, n)
    ensures RefRun(p, flow, answers + more, n) == RefRun(p, flow, answers, n)
  {
    if n > 0 {
      MoreAnswers(p, flow, answers, more, n - 1);
      StepWithMore(p, answers, more, RefRun(p, flow, answers, n - 1));
    }
  }

  lemma StepWithMore<F, R>(p: Program<F, R>, answers: seq<IoResult>, more: seq<IoResult>, c: Config<F, R>)
    requires !Blocked(p, answers, c)
    ensures !Blocked(p, answers + more, c) && RefStep(p, answers + more, c) == RefStep(p, answers, c)
  {
  }

  // ---- refinement ------------------------------------------------------------------------------

  /** Each parse node goes back to the nearest receive before it. */
  ghost predicate Built<F, R>(nodes: seq<Node<F, R>>) {
    forall i :: 0 <= i < |nodes| && nodes[i].Parse? ==> nodes[i].rearm == NearestReceive(nodes, i)
  }

  ghost predicate Has<F, R>(s: LinearState<F, R>, o: Outcome<R>) {
    match o
    case Value(r) => s.result == Some(r)
    case Error(e) => s.result.None? && s.error == Some(e)
  }

  /** The machine after some calls and the interpreter stand at the same place. */
  ghost predicate Matches<F, R>(p: Program<F, R>, rp: Replay<LinearState<F, R>, R>, answers: seq<IoResult>, c: Config<F, R>) {
    && c.calls == rp.state.calls && c.flow == rp.state.flow && c.used == |answers|
    && match rp.phase
       case Idle =>
         && rp.state.pending.None?
         && (if c.done.Some? then Has(rp.state, Seen(p, c.done.value)) else AtNode(rp.state, c))
       case Outstanding(kind, trivial) =>
         && AtNode(rp.state, c) && c.done.None? && c.cursor < |p.nodes|
         && rp.state.pending == Some(Pending(kind, c.cursor))
         && var node := p.nodes[c.cursor];
            node.Io? && node.kind == kind && !Refused(kind, node.buffer, node.length)
            && trivial == Trivial(kind, node.length)
       case Ended(o) => c.done.Some? && Seen(p, c.done.value) == Seen(p, o)
       case Broken => true
  }

  ghost predicate AtNode<F, R>(s: LinearState<F, R>, c: Config<F, R>) {
    s.result.None? && s.error.None? && s.cursor == c.cursor
  }

  /** Where the interpreter is after the event: moved by one step, or where it was. */
  ghost predicate Follows<F, R>(p: Program<F, R>, rp: Replay<LinearState<F, R>, R>, answers: seq<IoResult>,
                                c: Config<F, R>, moved: bool) {
    if moved then !Blocked(p, answers, c) && Matches(p, rp, answers, RefStep(p, answers, c))
    else Matches(p, rp, answers, c)
  }

  lemma LocalMatches<F, R>(p: Program<F, R>, s: LinearState<F, R>, run: F -> (F, Ops<R>),
                           answers: seq<IoResult>, c: Config<F, R>)
    requires Matches(p, Replay(s, Idle), answers, c) && c.done.None?
    ensures var (next, action) := RunLocal(p, s, run);
            Matches(p, Replay(next, PhaseAfter(action)), answers, RefLocal(c, run))
  {
  }

  lemma ParseMatches<F, R>(p: Program<F, R>, s: LinearState<F, R>, answers: seq<IoResult>, c: Config<F, R>)
    requires Built(p.nodes) && Matches(p, Replay(s, Idle), answers, c) && c.done.None?
    requires s.cursor < |p.nodes| && p.nodes[s.cursor].Parse?
    ensures var node := p.nodes[s.cursor];
            var (next, action) := RunParse(p, s, node.onParse, node.rearm);
            Matches(p, Replay(next, PhaseAfter(action)), answers, RefParse(p.nodes, c, node.onParse))
  {
  }

  lemma AdvanceMatches<F, R>(p: Program<F, R>, rp: Replay<LinearState<F, R>, R>, a: Action<R>,
                             answers: seq<IoResult>, c: Config<F, R>) returns (moved: bool)
    requires Built(p.nodes) && Matches(p, rp, answers, c)
    requires !ReplayStep(Linear(p), rp, Advanced(a)).phase.Broken?
    ensures Follows(p, ReplayStep(Linear(p), rp, Advanced(a)), answers, c, moved)
  {
    hide RunParse, RunLocal, RefParse, RefLocal, RefIo, Built;
    var s := rp.state;
    if c.done.Some? {
      moved := false;
    } else if s.cursor >= |p.nodes| {
      moved := true;
    } else {
      match p.nodes[s.cursor]
      case Io(kind, buffer, length, _) => moved := Refused(kind, buffer, length);
      case Parse(onParse, rearm) => moved := true; ParseMatches(p, s, answers, c);
      case Local(run) => moved := true; LocalMatches(p, s, run, answers, c);
      case Finish(run) => moved := true; LocalMatches(p, s, run, answers, c);
    }
  }

  lemma AnswerMatches<F, R>(p: Program<F, R>, rp: Replay<LinearState<F, R>, R>, d: Direction, r: IoResult, inline: bool,
                            answers: seq<IoResult>, c: Config<F, R>)
    requires Matches(p, rp, answers, c)
    requires !ReplayStep(Linear(p), rp, Answered(d, r, inline)).phase.Broken?
    ensures var now := if inline then answers else answers + [r];
            Follows(p, ReplayStep(Linear(p), rp, Answered(d, r, inline)), now, c, true)
  {
    hide RunParse, RunLocal, RefParse, RefLocal;
  }

  /** Over every unbroken history of calls the machine does what the interpreter does. */
  lemma {:induction false} HistoryMatches<F, R>(p: Program<F, R>, flow: F, log: seq<Event<R>>) returns (n: nat)
    requires Built(p.nodes) && !ReplayOf(Linear(p), Begin(flow), log).phase.Broken?
    ensures Unblocked(p, flow, Answers(log), n)
    ensures Matches(p, ReplayOf(Linear(p), Begin(flow), log), Answers(log), RefRun(p, flow, Answers(log), n))
    decreases |log|
  {
    hide Matches, RefStep, Advance, OnAnswer, Built;
    if log == [] {
      n := 0;
      BeginMatches(p, flow);
    } else {
      var before, e := log[..|log| - 1], log[|log| - 1];
      var rp := ReplayOf(Linear(p), Begin(flow), before);
      n := HistoryMatches(p, flow, before);
      var c := RefRun(p, flow, Answers(before), n);
      var moved := true;
      match e {
        case Advanced(a) => moved := AdvanceMatches(p, rp, a, Answers(before), c);
        case Answered(d, r, inline) =>
          AnswerMatches(p, rp, d, r, inline, Answers(before), c);
          if !inline {
            MoreAnswers(p, flow, Answers(before), [r], n);
          }
      }
      assert Answers(log) == if e.Answered? && !e.inline then Answers(before) + [e.result] else Answers(before);
      n := if moved then n + 1 else n;
    }
  }

  lemma BeginMatches<F, R>(p: Program<F, R>, flow: F)
    ensures Matches(p, Replay(Begin(flow), Idle), [], RefRun(p, flow, [], 0))
  {
  }

  /** What the coroutine gets when it resumes after an outcome. */
  ghost function OutcomeOf<S, R>(a: StateMachineAwaitable<S, R>): Outcome<R>
    requires a.Done()
    reads a
  {
    if a.result.Some? then Value(a.result.value) else Error(a.error.value)
  }

  /**
   The built awaitable refines the interpreter in every reachable state.  For some number of
   interpreter steps on the same IO answers the handler calls are the same; an outcome that the
   machine decided is the interpreter's; while it waits, the interpreter waits at the same IO.  An
   outcome that differs is kParamInvalid from the cap, or the error of a timeout or of a refused
   suspension; the cap is a burst of 64 inline results or a machine that spins for 64 transitions.
   */
  lemma BuiltAwaitableRefines<F, R>(a: StateMachineAwaitable<LinearState<F, R>, R>, p: Program<F, R>, flow: F) returns (n: nat)
    requires a.Valid() && a.machine == Linear(p) && a.start == Begin(flow) && Built(p.nodes)
    ensures var c := RefRun(p, flow, Answers(a.log), n);
      && Unblocked(p, flow, Answers(a.log), n)
      && c.calls == a.state.calls && c.flow == a.state.flow
      && (a.origin.Emitted? ==> c.done.Some? && Seen(p, c.done.value) == Seen(p, OutcomeOf(a)))
      && (a.hasActiveTask ==> Blocked(p, Answers(a.log), c) && p.nodes[c.cursor].kind == a.activeKind.value)
      && (a.origin.Capped? ==> OutcomeOf(a) == Error(ParamInvalid))
      && (a.origin.Capped? ==> a.burst == INLINE_TRANSITION_CAP || SpunSince(a.machine, a.start, a.log, 0))
      && (a.origin.Expired? ==> OutcomeOf(a) == Error(TimedOut))
      && (a.origin.Rejected? ==> OutcomeOf(a) in {Error(NotReady), Error(NotOnScheduler)})
      && !a.origin.Unanswerable?
  {
    hide ReplayOf, RefRun, RefStep, Unblocked, Answers, SpunSince, Spins;
    n := HistoryMatches(p, flow, a.log);
  }

  /**
   A readiness event on a built awaitable without an outcome.  On the answers taken so far the interpreter
   ends with the same outcome, or waits at the same IO with every ready result used; otherwise the cap was
   reached, by 64 inline results or by a machine that spins since the event, and the outcome is kParamInvalid.
   */
  method React<F, R>(a: StateMachineAwaitable<LinearState<F, R>, R>, p: Program<F, R>, ghost flow: F, io: seq<IoResult>)
    returns (progress: Progress, ghost n: nat)
    requires a.Valid() && a.machine == Linear(p) && a.start == Begin(flow) && Built(p.nodes) && a.origin.Open?
    modifies a
    ensures a.Valid() && (progress.Completed? <==> a.Done())
    ensures var c := RefRun(p, flow, Answers(a.log), n);
      && c.calls == a.state.calls && c.flow == a.state.flow
      && (a.origin.Emitted? ==> c.done.Some? && Seen(p, c.done.value) == Seen(p, OutcomeOf(a)))
      && (a.origin.Open? ==>
            Blocked(p, Answers(a.log), c) && a.hasActiveTask && Answers(a.log) == old(Answers(a.log)) + io)
    ensures a.origin.Open? || a.origin.Emitted? || a.origin.Capped?
    ensures a.origin.Capped? ==> a.error == Some(ParamInvalid)
    ensures a.origin.Capped? ==>
      a.burst == INLINE_TRANSITION_CAP || SpunSince(a.machine, a.start, a.log, |old(a.log)|)
  {
    hide ReplayOf, RefRun, RefStep, Unblocked, Answers, SpunSince, Spins, Advances;
    progress := a.OnActiveEvent(io);
    n := BuiltAwaitableRefines(a, p, flow);
  }

  // ---- what decides ------------------------------------------------------------------------------

  /** The error as the state holds it: in the result type if that can carry it, else beside it. */
  ghost predicate HoldsError<F, R>(p: Program<F, R>, s: LinearState<F, R>, e: IOError) {
    if p.carry.Some? then s.result == Some(p.carry.value(e)) else s.result.None? && s.error == Some(e)
  }

  ghost predicate NothingLeft<R>(ops: Ops<R>) {
    ops.result.None? && ops.failure.None? && !ops.queued
  }

  /** What a handler left is in the state: its result, else its failure, else a complaint about queued work. */
  ghost predicate TakenUp<F, R>(p: Program<F, R>, s: LinearState<F, R>, ops: Ops<R>) {
    && (ops.result.Some? ==> s.result == ops.result)
    && (ops.result.None? && ops.failure.Some? ==> HoldsError(p, s, ops.failure.value))
    && (ops.result.None? && ops.failure.None? && ops.queued ==> HoldsError(p, s, ParamInvalid))
  }

  ghost predicate Undecided<F, R>(s: LinearState<F, R>) {
    s.result.None? && s.error.None?
  }

  ghost predicate Announced<F, R>(s: LinearState<F, R>, a: Action<R>) {
    if s.result.Some? then a == Complete(s.result) else if s.error.Some? then a == Fail(s.error) else a == Continue
  }

  /** A local or finish node: its handler runs once, decides if it left anything, and the next node follows otherwise. */
  lemma LocalDoes<F, R>(p: Program<F, R>, s: LinearState<F, R>)
    requires Undecided(s) && s.cursor < |p.nodes| && (p.nodes[s.cursor].Local? || p.nodes[s.cursor].Finish?)
    ensures var (next, action) := Advance(p, s);
      var (flow, ops) := p.nodes[s.cursor].run(s.flow);
      && next.flow == flow && next.calls == s.calls + [Call(s.cursor, None)]
      && TakenUp(p, next, ops) && Announced(next, action)
      && (NothingLeft(ops) ==> Undecided(next) && next.cursor == s.cursor + 1)
  {
  }

  /** A parse node of a built program: decided by its handler, else repeated, passed, or gone back from. */
  lemma ParseDoes<F, R>(p: Program<F, R>, s: LinearState<F, R>)
    requires Built(p.nodes) && Undecided(s) && s.cursor < |p.nodes| && p.nodes[s.cursor].Parse?
    ensures var (next, action) := Advance(p, s);
      var (flow, ops, status) := p.nodes[s.cursor].onParse(s.flow);
      && next.flow == flow && next.calls == s.calls + [Call(s.cursor, None)]
      && TakenUp(p, next, ops) && Announced(next, action)
      && (NothingLeft(ops) && status == Again ==> Undecided(next) && next.cursor == s.cursor)
      && (NothingLeft(ops) && status == Parsed ==> Undecided(next) && next.cursor == s.cursor + 1)
      && (NothingLeft(ops) && status == NeedMore ==>
            if exists j :: 0 <= j < s.cursor && p.nodes[j].Receives() then
              && Undecided(next) && next.cursor < s.cursor && p.nodes[next.cursor].Receives()
              && forall j :: next.cursor < j < s.cursor ==> !p.nodes[j].Receives()
            else HoldsError(p, next, ParamInvalid))
  {
  }

  /** An IO node waits for its IO; past the last node there is nothing to wait for. */
  lemma OtherwiseDoes<F, R>(p: Program<F, R>, s: LinearState<F, R>)
    requires Undecided(s)
    ensures s.cursor >= |p.nodes| ==> HoldsError(p, Advance(p, s).0, NotReady) && Advance(p, s).0.calls == s.calls
    ensures s.cursor < |p.nodes| && p.nodes[s.cursor].Io? ==>
      var node := p.nodes[s.cursor];
      && Advance(p, s).1 == Wait(node.kind, node.buffer, node.length)
      && Advance(p, s).0 == s.(pending := Some(Pending(node.kind, s.cursor)))
  {
  }

  /** The answer to a pending IO: its handler runs once and decides, else an IO error does, else the next node follows. */
  lemma AnswerDoes<F, R>(p: Program<F, R>, s: LinearState<F, R>, r: IoResult)
    requires Undecided(s) && s.pending.Some? && s.pending.value.index == s.cursor < |p.nodes| && p.nodes[s.cursor].Io?
    ensures var next := OnAnswer(p, s, DirectionOf(s.pending.value.kind), r);
      var (flow, ops) := p.nodes[s.cursor].onIo(s.flow, r);
      && next.flow == flow && next.calls == s.calls + [Call(s.cursor, Some(r))] && next.pending.None?
      && TakenUp(p, next, ops)
      && (NothingLeft(ops) && r.Err? ==> HoldsError(p, next, r.error))
      && (NothingLeft(ops) && r.Ok? ==> Undecided(next) && next.cursor == s.cursor + 1)
  {
  }

  /** The outcome is what the handler left first of all. */
  ghost predicate LeftBy<R>(ops: Ops<R>, o: Outcome<R>) {
    if ops.result.Some? then o == Value(ops.result.value)
    else if ops.failure.Some? then o == Error(ops.failure.value)
    else ops.queued && o == Error(ParamInvalid)
  }

  /** The node at which the interpreter stands ends the flow with this outcome. */
  ghost predicate EndsWith<F, R>(p: Program<F, R>, answers: seq<IoResult>, c: Config<F, R>, o: Outcome<R>) {
    if c.cursor >= |p.nodes| then o == Error(NotReady)
    else
      match p.nodes[c.cursor]
      case Local(run) => LeftBy(run(c.flow).1, o)
      case Finish(run) => LeftBy(run(c.flow).1, o)
      case Parse(onParse, _) =>
        var (_, ops, status) := onParse(c.flow);
        LeftBy(ops, o) ||
        (NothingLeft(ops) && status == NeedMore && o == Error(ParamInvalid)
         && forall j :: 0 <= j < c.cursor ==> !p.nodes[j].Receives())
      case Io(kind, buffer, length, onIo) =>
        if kind != Connect && buffer == Null && length != 0 then o == Error(ParamInvalid)
        else
          var trivial := kind != Connect && length == 0;
          (trivial || c.used < |answers|) &&
          var r := if trivial then Ok(0) else answers[c.used];
          LeftBy(onIo(c.flow, r).1, o) || (NothingLeft(onIo(c.flow, r).1) && r.Err? && o == Error(r.error))
  }

  lemma StepEnds<F, R>(p: Program<F, R>, answers: seq<IoResult>, c: Config<F, R>)
    requires c.done.None? && RefStep(p, answers, c).done.Some?
    ensures EndsWith(p, answers, c, RefStep(p, answers, c).done.value)
  {
    if c.cursor < |p.nodes| {
      match p.nodes[c.cursor]
      case Io(kind, buffer, length, onIo) =>
      case Parse(onParse, _) => ParseEnds(p.nodes, c, onParse);
      case Local(run) =>
      case Finish(run) =>
    }
  }

  lemma ParseEnds<F, R>(nodes: seq<Node<F, R>>, c: Config<F, R>, onParse: F -> (F, Ops<R>, Status))
    requires c.cursor < |nodes| && c.done.None? && RefParse(nodes, c, onParse).done.Some?
    ensures var (_, ops, status) := onParse(c.flow);
      var o := RefParse(nodes, c, onParse).done.value;
      LeftBy(ops, o) ||
      (NothingLeft(ops) && status == NeedMore && o == Error(ParamInvalid)
       && forall j :: 0 <= j < c.cursor ==> !nodes[j].Receives())
  {
  }

  /** An interpreter that has ended was ended by one step, from a configuration without an outcome. */
  lemma {:induction false} EndedByOneStep<F, R>(p: Program<F, R>, flow: F, answers: seq<IoResult>, n: nat) returns (k: nat)
    requires RefRun(p, flow, answers, n).done.Some?
    ensures k < n && RefRun(p, flow, answers, k).done.None?
    ensures RefRun(p, flow, answers, k + 1) == RefRun(p, flow, answers, n)
  {
    hide RefStep;
    if RefRun(p, flow, answers, n - 1).done.None? {
      k := n - 1;
    } else {
      k := EndedByOneStep(p, flow, answers, n - 1);
      DoneStays(p, answers, RefRun(p, flow, answers, n - 1));
    }
  }

  lemma DoneStays<F, R>(p: Program<F, R>, answers: seq<IoResult>, c: Config<F, R>)
    requires c.done.Some?
    ensures RefStep(p, answers, c) == c
  {
  }

  /**
   What the coroutine resumes with, after an outcome of a built awaitable's machine, is what the first
   handler to leave anything left: its result, else exactly its failure, else kParamInvalid for queued
   work; or the error of the IO, of a refused buffer, of a parser with no receive before it, or of
   running past the last node.
   */
  lemma FirstOutcomeDecides<F, R>(a: StateMachineAwaitable<LinearState<F, R>, R>, p: Program<F, R>, flow: F)
    returns (k: nat, o: Outcome<R>)
    requires a.Valid() && a.machine == Linear(p) && a.start == Begin(flow) && Built(p.nodes) && a.origin.Emitted?
    ensures var c := RefRun(p, flow, Answers(a.log), k); c.done.None? && EndsWith(p, Answers(a.log), c, o)
    ensures var resumed := if a.result.None? && p.carry.Some? then Value(p.carry.value(a.error.value)) else OutcomeOf(a);
      resumed == if o.Error? && p.carry.Some? then Value(p.carry.value(o.error)) else o
  {
    hide RefStep, ReplayOf, Answers, SpunSince, Spins, EndsWith, Unblocked;
    var n := BuiltAwaitableRefines(a, p, flow);
    o := RefRun(p, flow, Answers(a.log), n).done.value;
    k := EndedByOneStep(p, flow, Answers(a.log), n);
    StepEnds(p, Answers(a.log), RefRun(p, flow, Answers(a.log), k));
  }

  // ---- timeouts ----------------------------------------------------------------------------------

  /** An error answer ends the interpreter, so while it has no outcome every answer it took was good. */
  lemma {:induction false} OnlyGoodAnswers<F, R>(p: Program<F, R>, flow: F, answers: seq<IoResult>, n: nat)
    ensures var c := RefRun(p, flow, answers, n);
      c.done.None? ==> forall j :: 0 <= j < c.used && j < |answers| ==> answers[j].Ok?
  {
    if n > 0 {
      OnlyGoodAnswers(p, flow, answers, n - 1);
      StepUsesOne(p, answers, RefRun(p, flow, answers, n - 1));
    }
  }

  lemma StepUsesOne<F, R>(p: Program<F, R>, answers: seq<IoResult>, c: Config<F, R>)
    ensures var c' := RefStep(p, answers, c);
      && (c.done.Some? ==> c' == c)
      && (c'.used == c.used ||
          (c'.used == c.used + 1 <= |answers| && (answers[c.used].Err? ==> c'.done.Some?)))
  {
  }

  /** A built awaitable that waits has been told of no error. */
  lemma WaitingHasNoError<F, R>(a: StateMachineAwaitable<LinearState<F, R>, R>, p: Program<F, R>, flow: F)
    requires a.Valid() && a.machine == Linear(p) && a.start == Begin(flow) && Built(p.nodes) && a.hasActiveTask
    ensures forall j :: 0 <= j < |Answers(a.log)| ==> Answers(a.log)[j].Ok?
  {
    hide ReplayOf, RefRun, RefStep, Unblocked, Answers, SpunSince, Spins;
    var n := HistoryMatches(p, flow, a.log);
    OnlyGoodAnswers(p, flow, Answers(a.log), n);
  }

  lemma EndedDoesNotSpin<F, R>(p: Program<F, R>, s: LinearState<F, R>, n: nat)
    requires n > 0 && (s.result.Some? || s.error.Some?)
    ensures !Spins(Linear(p), s, n)
  {
  }

  lemma ErrorEnds<F, R>(p: Program<F, R>, s: LinearState<F, R>, kind: Kind, e: IOError)
    requires s.pending.Some? && s.pending.value.kind == kind
    ensures var s' := OnAnswer(p, s, DirectionOf(kind), Err(e)); s'.result.Some? || s'.error.Some?
  {
  }

  lemma WaitingIsPending<F, R>(a: StateMachineAwaitable<LinearState<F, R>, R>, p: Program<F, R>, flow: F)
    requires a.Valid() && a.machine == Linear(p) && a.start == Begin(flow) && Built(p.nodes) && a.hasActiveTask
    ensures a.activeKind.Some? && a.state.pending.Some? && a.state.pending.value.kind == a.activeKind.value
  {
    hide ReplayOf, RefRun, RefStep, Unblocked, Answers, SpunSince, Spins;
    var n := HistoryMatches(p, flow, a.log);
  }

  /** A timeout of a waiting built awaitable ends as the interpreter does when that IO fails with the timeout. */
  method TimeOut<F, R>(a: StateMachineAwaitable<LinearState<F, R>, R>, p: Program<F, R>, ghost flow: F) returns (ghost n: nat)
    requires a.Valid() && a.machine == Linear(p) && a.start == Begin(flow) && Built(p.nodes)
    requires a.origin.Open? && a.hasActiveTask
    modifies a
    ensures a.Valid() && a.origin.Emitted?
    ensures var c := RefRun(p, flow, old(Answers(a.log)) + [Err(TimedOut)], n);
      && c.calls == a.state.calls && c.flow == a.state.flow
      && c.done.Some? && Seen(p, c.done.value) == Seen(p, OutcomeOf(a))
  {
    hide ReplayOf, RefRun, RefStep, Unblocked, Answers, SpunSince, Spins, Advances, StateMachineAwaitable.Sound;
    WaitingIsPending(a, p, flow);
    ErrorEnds(p, a.state, a.activeKind.value, TimedOut);
    EndedDoesNotSpin(p, OnAnswer(p, a.state, DirectionOf(a.activeKind.value), Err(TimedOut)), INLINE_TRANSITION_CAP);
    ghost var before := Answers(a.log);
    a.MarkTimeout();
    assert Answers(a.log)[|before|] == Err(TimedOut);
    if a.hasActiveTask {
      WaitingHasNoError(a, p, flow);
    }
    n := BuiltAwaitableRefines(a, p, flow);
  }

  // ---- the builder -----------------------------------------------------------------------------

  function EventOf(kind: Kind): Domains.Event {
    match kind
    case Recv => Domains.RECV
    case Readv => Domains.READV
    case Send => Domains.SEND
    case Writev => Domains.WRITEV
    case Connect => Domains.CONNECT
  }

  /** Some node waits for reading, or some node waits for writing. */
  ghost predicate Waits<F, R>(nodes: seq<Node<F, R>>, reading: bool) {
    exists i :: 0 <= i < |nodes| && nodes[i].Io? && nodes[i].Receives() == reading
  }

  class AwaitableBuilder<F, R> {
    var nodes: seq<Node<F, R>>
    var lastRecv: Option<nat>

    ghost predicate Valid()
      reads this
    {
      Built(nodes) && lastRecv == NearestReceive(nodes, |nodes|)
    }

    constructor ()
      ensures Valid() && nodes == []
    {
      nodes, lastRecv := [], None;
    }

    method AddLocal(run: F -> (F, Ops<R>))
      requires Valid()
      modifies this
      ensures Valid() && nodes == old(nodes) + [Local(run)]
    {
      hide NearestReceive, Built;
      Appended(nodes, Local(run));
      nodes := nodes + [Local(run)];
    }

    method AddFinish(run: F -> (F, Ops<R>))
      requires Valid()
      modifies this
      ensures Valid() && nodes == old(nodes) + [Finish(run)]
    {
      hide NearestReceive, Built;
      Appended(nodes, Finish(run));
      nodes := nodes + [Finish(run)];
    }

    /** The parser goes back to the last receive added so far. */
    method AddParse(onParse: F -> (F, Ops<R>, Status))
      requires Valid()
      modifies this
      ensures Valid() && nodes == old(nodes) + [Parse(onParse, NearestReceive(old(nodes), |old(nodes)|))]
    {
      hide NearestReceive, Built;
      Appended(nodes, Parse(onParse, lastRecv));
      nodes := nodes + [Parse(onParse, lastRecv)];
    }

    /** recv, readv, send, writev and connect. */
    method AddIo(kind: Kind, buffer: Buffer, length: nat, onIo: (F, IoResult) -> (F, Ops<R>))
      requires Valid()
      modifies this
      ensures Valid() && nodes == old(nodes) + [Io(kind, buffer, length, onIo)]
    {
      hide NearestReceive, Built;
      var node: Node<F, R> := Io(kind, buffer, length, onIo);
      Appended(nodes, node);
      nodes := nodes + [node];
      if kind == Recv || kind == Readv {
        lastRecv := Some(|nodes| - 1);
      }
    }

    /** The owner domain that the nodes need. */
    method InferDomain() returns (domain: Domains.Domain)
      ensures forall i :: 0 <= i < |nodes| && nodes[i].Io? ==> Domains.Covers(domain, EventOf(nodes[i].kind))
      ensures domain.Read? <==> Waits(nodes, true) && !Waits(nodes, false)
      ensures domain.Write? <==> Waits(nodes, false) && !Waits(nodes, true)
    {
      var hasRead, hasWrite, i := false, false, 0;
      while i < |nodes| && !(hasRead && hasWrite)
        invariant 0 <= i <= |nodes|
        invariant !(hasRead && hasWrite) ==>
          forall k :: 0 <= k < i && nodes[k].Io? ==> (if nodes[k].Receives() then hasRead else hasWrite)
        invariant (hasRead ==> Waits(nodes, true)) && (hasWrite ==> Waits(nodes, false))
      {
        if nodes[i].Receives() {
          hasRead := true;
        } else if nodes[i].Io? {
          hasWrite := true;
        }
        i := i + 1;
      }
      domain := if hasRead && hasWrite then Domains.ReadWrite
        else if hasRead then Domains.Read
        else if hasWrite then Domains.Write
        else Domains.ReadWrite;
    }
  }

  lemma Appended<F, R>(nodes: seq<Node<F, R>>, node: Node<F, R>)
    requires Built(nodes) && (node.Parse? ==> node.rearm == NearestReceive(nodes, |nodes|))
    ensures Built(nodes + [node])
    ensures NearestReceive(nodes + [node], |nodes| + 1)
            == if node.Receives() then Some(|nodes|) else NearestReceive(nodes, |nodes|)
  {
    forall i | 0 <= i <= |nodes| ensures NearestReceive(nodes + [node], i) == NearestReceive(nodes, i) {
      SamePrefix(nodes, node, i);
    }
  }

  lemma {:induction false} SamePrefix<F, R>(nodes: seq<Node<F, R>>, node: Node<F, R>, i: nat)
    requires i <= |nodes|
    ensures NearestReceive(nodes + [node], i) == NearestReceive(nodes, i)
  {
    if i > 0 {
      SamePrefix(nodes, node, i - 1);
    }
  }

  /** Whatever the handlers do, the machine only ever waits for an IO of one of its nodes. */
  lemma WaitsAreNodes<F, R>(p: Program<F, R>, s: LinearState<F, R>)
    requires Advance(p, s).1.Wait?
    ensures exists i :: 0 <= i < |p.nodes| && p.nodes[i].Io? && p.nodes[i].kind == Advance(p, s).1.kind
  {
    assert s.cursor < |p.nodes| && p.nodes[s.cursor].Io?;
  }

  /** A domain that covers the nodes covers every wait the awaitable can be in. */
  lemma ActiveWaitIsCovered<F, R>(a: StateMachineAwaitable<LinearState<F, R>, R>, p: Program<F, R>, flow: F, domain: Domains.Domain)
    requires a.Valid() && a.machine == Linear(p) && a.start == Begin(flow) && Built(p.nodes)
    requires forall i :: 0 <= i < |p.nodes| && p.nodes[i].Io? ==> Domains.Covers(domain, EventOf(p.nodes[i].kind))
    requires a.hasActiveTask
    ensures Domains.Covers(domain, EventOf(a.activeKind.value))
  {
    var n := BuiltAwaitableRefines(a, p, flow);
    var c := RefRun(p, flow, Answers(a.log), n);
    assert p.nodes[c.cursor].Io?;
  }
}
