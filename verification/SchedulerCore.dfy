/**
 The ready passes of a scheduler over its worker.  A resumed task may schedule further tasks and other
 threads may inject some: a finite script of turns, each a list of scheduling calls, stands for both.
 */
module SchedulerCore {
  import opened Wrappers
  import opened RingProtocol
  import TaskRing
  import opened Worker

  datatype Call = Local(task: Option<Task>) | Deferred(task: Option<Task>) | Injected(task: Option<Task>)

  type Turn = seq<Call>

  ghost function Offered(turn: Turn): multiset<Task> {
    if turn == [] then multiset{} else Offered(turn[..|turn| - 1]) + Given(turn[|turn| - 1].task)
  }

  ghost function AllOffered(script: seq<Turn>): multiset<Task> {
    if script == [] then multiset{} else Offered(script[0]) + AllOffered(script[1..])
  }

  /** What is left of a script after some of its turns. */
  predicate Rest(rest: seq<Turn>, script: seq<Turn>) {
    |rest| <= |script| && rest == script[|script| - |rest|..]
  }

  /** What is left of a rest is left of the script; a rest of the same length is the whole script. */
  lemma RestOfRest(rest: seq<Turn>, mid: seq<Turn>, script: seq<Turn>)
    requires Rest(rest, mid) && Rest(mid, script)
    ensures Rest(rest, script) && |rest| <= |mid| && (rest != mid ==> |rest| < |mid|)
  {
  }

  lemma WholeRest(script: seq<Turn>)
    ensures Rest(script, script)
    ensures script != [] ==> Rest(script[1..], script)
  {
  }

  lemma {:induction false} RestOffersLess(rest: seq<Turn>, script: seq<Turn>)
    requires Rest(rest, script)
    ensures AllOffered(rest) <= AllOffered(script)
    decreases |script|
  {
    if rest != script {
      assert script[1..][|script| - 1 - |rest|..] == rest;
      RestOffersLess(rest, script[1..]);
    }
  }

  datatype Summary = Summary(ran: nat, drainedRemote: nat, passes: nat)

  /** Nothing is created or lost between two states of a worker. */
  ghost predicate Conserved(before: multiset<Task>, script: seq<Turn>, after: multiset<Task>, ran: multiset<Task>, rest: seq<Turn>) {
    before + AllOffered(script) == after + ran + AllOffered(rest)
  }

  lemma Chain(before: multiset<Task>, script: seq<Turn>, mid: multiset<Task>, ran: multiset<Task>, rest: seq<Turn>,
              after: multiset<Task>, ran': multiset<Task>, rest': seq<Turn>, both: multiset<Task>)
    requires Conserved(before, script, mid, ran, rest) && Conserved(mid, rest, after, ran', rest')
    requires both == ran + ran'
    ensures Conserved(before, script, after, both, rest')
  {
    hide AllOffered;
    forall t: Task ensures (before + AllOffered(script))[t] == (after + (ran + ran') + AllOffered(rest'))[t] {
      assert (before + AllOffered(script))[t] == (mid + ran + AllOffered(rest))[t];
      assert (mid + AllOffered(rest))[t] == (after + ran' + AllOffered(rest'))[t];
    }
  }

  /** Running a task without a turn of the script leaves one task less. */
  lemma OneLess(before: multiset<Task>, script: seq<Turn>, after: multiset<Task>, t: Task)
    requires Conserved(before, script, after, multiset{t}, script)
    ensures |after| < |before|
  {
    hide AllOffered;
    assert |before + AllOffered(script)| == |after + multiset{t} + AllOffered(script)|;
  }

  lemma PopConserves(before: multiset<Task>, script: seq<Turn>, after: multiset<Task>, out: Option<Task>)
    requires after + Given(out) == before
    ensures Conserved(before, script, after, Given(out), script)
  {
    hide AllOffered;
  }

  lemma StartConserved(before: multiset<Task>, script: seq<Turn>)
    ensures Conserved(before, script, before, multiset([]), script)
  {
  }

  lemma OfferedOneMore(turn: Turn, i: nat)
    requires i < |turn|
    ensures Offered(turn[..i + 1]) == Offered(turn[..i]) + Given(turn[i].task)
  {
    assert turn[..i + 1][..i] == turn[..i];
  }

  lemma TurnTaken(before: multiset<Task>, script: seq<Turn>, after: multiset<Task>)
    requires script != [] && after == before + Offered(script[0])
    ensures Conserved(before, script, after, multiset{}, script[1..])
  {
  }

  class SchedulerCore {
    const worker: WorkerState
    var readyBudget: nat

    ghost predicate Valid()
      reads this, worker
    {
      worker.Valid() && 1 <= readyBudget
    }

    constructor (worker: WorkerState, readyBudget: nat)
      requires worker.Valid()
      ensures Valid() && this.worker == worker && this.readyBudget == Max(1, readyBudget)
    {
      this.worker := worker;
      this.readyBudget := Max(1, readyBudget);
    }

    /** A call of a resumed task, or of another thread, which can only inject. */
    method PerformOne(call: Call, remote: bool)
      requires Valid()
      modifies worker
      ensures Valid() && worker.Held() == old(worker.Held()) + Given(call.task)
      ensures remote ==> worker.lifoSlot == old(worker.lifoSlot) && worker.ring == old(worker.ring)
      ensures worker.moved == old(worker.moved)
    {
      hide WorkerState.Held, TaskRing.Contents, TaskRing.Valid, WorkerState.Deferred;
      if remote {
        var _ := worker.ScheduleInjected(call.task);
      } else {
        match call {
          case Local(task) => worker.ScheduleLocal(task);
          case Deferred(task) => worker.ScheduleLocalDeferred(task);
          case Injected(task) => var _ := worker.ScheduleInjected(task);
        }
      }
    }

    method Perform(turn: Turn, remote: bool)
      requires Valid()
      modifies worker
      ensures Valid() && worker.Held() == old(worker.Held()) + Offered(turn)
      ensures remote ==> worker.lifoSlot == old(worker.lifoSlot) && worker.ring == old(worker.ring)
      ensures worker.moved == old(worker.moved)
    {
      hide WorkerState.Valid, WorkerState.Held, Given;
      var i := 0;
      assert turn[..0] == [];
      while i < |turn|
        invariant i <= |turn| && Valid()
        invariant worker.Held() == old(worker.Held()) + Offered(turn[..i])
        invariant worker.moved == old(worker.moved)
        invariant remote ==> worker.lifoSlot == old(worker.lifoSlot) && worker.ring == old(worker.ring)
      {
        PerformOne(turn[i], remote);
        OfferedOneMore(turn, i);
        i := i + 1;
      }
      assert turn[..|turn|] == turn;
    }

    /** The next turn of the script. */
    method Interfere(script: seq<Turn>, remote: bool) returns (rest: seq<Turn>)
      requires Valid()
      modifies worker
      ensures Valid() && Conserved(old(worker.Held()), script, worker.Held(), multiset{}, rest)
      ensures Rest(rest, script) && |rest| <= |script| && (script != [] ==> |rest| < |script|)
      ensures script == [] ==> rest == [] && unchanged(worker)
      ensures remote ==> worker.lifoSlot == old(worker.lifoSlot) && worker.ring == old(worker.ring)
      ensures worker.moved == old(worker.moved)
    {
      hide WorkerState.Valid, WorkerState.Held;
      WholeRest(script);
      rest := script;
      if script != [] {
        Perform(script[0], remote);
        TurnTaken(old(worker.Held()), script, worker.Held());
        rest := script[1..];
      }
    }

    /** Drains what fits; an idle worker's inject queue is then empty, or it has local work. */
    method Drain() returns (drained: nat)
      requires Valid()
      modifies worker
      ensures Valid() && worker.Held() == old(worker.Held())
      ensures drained == old(Min(Min(CAPACITY - |worker.Local()|, worker.batch), |worker.inject|))
      ensures old(!worker.HasLocalWork()) ==> worker.HasLocalWork() || worker.inject == []
      ensures old(!worker.HasLocalWork()) ==> (worker.HasLocalWork() <==> drained > 0)
      ensures old(worker.HasLocalWork()) ==> worker.HasLocalWork()
      ensures drained == |old(worker.inject)| - |worker.inject| == worker.moved - old(worker.moved)
    {
      hide WorkerState.Held, TaskRing.Contents, TaskRing.Valid, Reversed;
      SizeIsLength(worker.ring);
      drained := worker.DrainInjected();
      SizeIsLength(worker.ring);
    }

    /** Looks at the inject queue when there is no local work, when it is time, or when it is not empty. */
    method CollectRemote() returns (drained: nat)
      requires Valid()
      modifies worker
      ensures Valid() && worker.Held() == old(worker.Held())
      ensures worker.HasLocalWork() || worker.inject == []
      ensures drained == old(Min(Min(CAPACITY - |worker.Local()|, worker.batch), |worker.inject|))
      ensures drained == |old(worker.inject)| - |worker.inject| == worker.moved - old(worker.moved)
    {
      hide WorkerState.Held, TaskRing.Contents, TaskRing.Valid;
      drained := 0;
      if !worker.HasLocalWork() || worker.pollsSinceInject >= worker.injectInterval || worker.HasPendingInjected() {
        drained := Drain();
      }
    }

    /** The second look of an idle worker: another round if something is pending, else one more drain. */
    method LookAgain(script: seq<Turn>) returns (next: Option<Task>, drained: nat, again: bool, rest: seq<Turn>)
      requires Valid() && !worker.HasLocalWork() && worker.inject == []
      modifies worker
      ensures Valid() && Conserved(old(worker.Held()), script, worker.Held(), Given(next), rest)
      ensures worker.moved == old(worker.moved) + drained
      ensures again ==> next.None? && |rest| < |script|
      ensures next.None? && !again ==> !worker.HasLocalWork() && worker.inject == []
      ensures Rest(rest, script)
    {
      hide AllOffered, Conserved, Rest, WorkerState.Held, TaskRing.Contents, TaskRing.Valid;
      next, drained, again := None, 0, false;
      ghost var start := worker.Held();
      rest := Interfere(script, true);
      if worker.HasPendingInjected() {
        again := true;
      } else {
        ghost var mid, at := worker.Held(), rest;
        rest := Interfere(rest, true);
        RestOfRest(rest, at, script);
        Chain(start, script, mid, multiset{}, at, worker.Held(), multiset{}, rest, multiset{});
        mid := worker.Held();
        drained := Drain();
        if drained > 0 {
          next := worker.PopNext();
          PopConserves(mid, rest, worker.Held(), next);
          Chain(start, script, mid, multiset{}, rest, worker.Held(), Given(next), rest, Given(next));
        }
      }
    }

    /**
     The head of the pass loop: collect, pop, and if there was nothing to pop look once more.  `again`
     asks for another round because a task was injected meanwhile.
     */
    method Fetch(script: seq<Turn>) returns (next: Option<Task>, drained: nat, again: bool, rest: seq<Turn>)
      requires Valid()
      modifies worker
      ensures Valid() && Conserved(old(worker.Held()), script, worker.Held(), Given(next), rest)
      ensures worker.moved == old(worker.moved) + drained
      ensures again ==> next.None? && |rest| < |script|
      ensures next.None? && !again ==> !worker.HasLocalWork() && worker.inject == []
      ensures Rest(rest, script)
    {
      hide AllOffered, Conserved, Rest, WorkerState.Held, TaskRing.Contents, TaskRing.Valid;
      WholeRest(script);
      rest, again := script, false;
      ghost var start := worker.Held();
      drained := CollectRemote();
      next := worker.PopNext();
      PopConserves(start, script, worker.Held(), next);
      if next.None? {
        assert worker.Held() == start;
        var more;
        next, more, again, rest := LookAgain(script);
        drained := drained + more;
      }
    }

    /**
     One ready pass.  It resumes at most the budget when it starts with local work, and otherwise at
     most the budget plus what it drained; it stops before the budget, or before it has run as many as
     it drained, only when nothing is left; and every task is run, held or still to come.
     */
    method RunReadyPass(script: seq<Turn>) returns (summary: Summary, resumed: seq<Task>, rest: seq<Turn>)
      requires Valid()
      modifies worker
      ensures Valid() && Conserved(old(worker.Held()), script, worker.Held(), multiset(resumed), rest)
      ensures Rest(rest, script) && summary.ran == |resumed| && summary.passes == 1
      ensures worker.moved == old(worker.moved) + summary.drainedRemote
      ensures old(worker.HasLocalWork()) ==> summary.ran <= readyBudget
      ensures summary.ran <= readyBudget + summary.drainedRemote
      ensures summary.ran < readyBudget ==> !worker.HasLocalWork() && worker.inject == []
      ensures old(!worker.HasLocalWork()) && summary.ran < summary.drainedRemote ==> !worker.HasLocalWork() && worker.inject == []
    {
      hide AllOffered, Conserved, Rest, WorkerState.Held, TaskRing.Contents, TaskRing.Valid;
      StartConserved(worker.Held(), script);
      WholeRest(script);
      var burst := !worker.HasLocalWork();
      var credit: nat, ran: nat, total: nat, looking := 0, 0, 0, true;
      resumed, rest := [], script;
      while looking
        invariant Valid() && ran == |resumed| && Rest(rest, script) && worker.moved == old(worker.moved) + total
        invariant Conserved(old(worker.Held()), script, worker.Held(), multiset(resumed), rest)
        invariant burst ==> ran + credit <= readyBudget + total
        invariant !burst ==> ran <= readyBudget && credit == 0
        invariant burst ==> total <= ran + credit
        invariant !looking && burst ==> credit == 0 || (!worker.HasLocalWork() && worker.inject == [])
        invariant looking ==> ran < readyBudget || credit > 0
        invariant !looking ==> ran >= readyBudget || (!worker.HasLocalWork() && worker.inject == [])
        decreases looking, |rest|, |worker.Held()|
      {
        ghost var before, at := worker.Held(), rest;
        var next, drained, again;
        next, drained, again, rest := Fetch(rest);
        RestOfRest(rest, at, script);
        Chain(old(worker.Held()), script, before, multiset(resumed), at, worker.Held(), Given(next), rest, multiset(resumed) + Given(next));
        total := total + drained;
        if burst { credit := credit + drained; }
        if next.Some? {
          if rest == at { OneLess(before, at, worker.Held(), next.value); }
          assert multiset(resumed + [next.value]) == multiset(resumed) + Given(next);
          resumed := resumed + [next.value];
          ran := ran + 1;
          before, at := worker.Held(), rest;
          rest := Interfere(rest, false);
          RestOfRest(rest, at, script);
          Chain(old(worker.Held()), script, before, multiset(resumed), at, worker.Held(), multiset{}, rest, multiset(resumed));
          if burst && credit > 0 { credit := credit - 1; }
          looking := ran < readyBudget || (burst && credit > 0);
        } else {
          assert multiset(resumed) + Given(next) == multiset(resumed);
          looking := again;
        }
      }
      summary := Summary(ran, total, 1);
    }

    /**
     Further passes as long as each uses exactly its budget without draining anything and local work is left;
     fewer than allowed only when the last one did not.
     */
    method RunLocalFollowupPasses(maxPasses: nat, script: seq<Turn>) returns (sum: Summary, resumed: seq<Task>, rest: seq<Turn>)
      requires Valid()
      modifies worker
      ensures Valid() && Conserved(old(worker.Held()), script, worker.Held(), multiset(resumed), rest)
      ensures sum.ran == |resumed| && sum.passes <= maxPasses && (maxPasses > 0 ==> sum.passes > 0)
      ensures sum.ran <= sum.passes * readyBudget + sum.drainedRemote
      ensures worker.moved == old(worker.moved) + sum.drainedRemote
      ensures sum.passes > 1 ==> sum.ran >= (sum.passes - 1) * readyBudget
      ensures 0 < sum.passes < maxPasses ==>
        sum.ran < sum.passes * readyBudget || sum.drainedRemote != 0 || !worker.HasLocalWork()
    {
      hide AllOffered, Conserved, Rest, WorkerState.Held, TaskRing.Contents, TaskRing.Valid;
      StartConserved(worker.Held(), script);
      sum, resumed, rest := Summary(0, 0, 0), [], script;
      var more := true;
      while more && sum.passes < maxPasses
        invariant Valid() && sum.ran == |resumed| && sum.passes <= maxPasses
        invariant worker.moved == old(worker.moved) + sum.drainedRemote
        invariant more || sum.passes > 0
        invariant Conserved(old(worker.Held()), script, worker.Held(), multiset(resumed), rest)
        invariant sum.ran <= sum.passes * readyBudget + sum.drainedRemote
        invariant more ==> sum.drainedRemote == 0 && sum.ran == sum.passes * readyBudget
        invariant sum.passes > 1 ==> sum.ran >= (sum.passes - 1) * readyBudget
        invariant !more ==> sum.ran < sum.passes * readyBudget || sum.drainedRemote != 0 || !worker.HasLocalWork()
        decreases maxPasses - sum.passes
      {
        ghost var before, at := worker.Held(), rest;
        var one, ran, left := RunReadyPass(rest);
        Chain(old(worker.Held()), script, before, multiset(resumed), at, worker.Held(), multiset(ran), left, multiset(resumed + ran));
        assert (sum.passes + 1) * readyBudget == sum.passes * readyBudget + readyBudget;
        resumed, rest := resumed + ran, left;
        sum := Summary(sum.ran + one.ran, sum.drainedRemote + one.drainedRemote, sum.passes + one.passes);
        more := !(one.ran < readyBudget || one.drainedRemote != 0 || !worker.HasLocalWork());
      }
    }
  }
}
