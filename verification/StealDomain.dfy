/** Schedulers that steal from each other: over any run of their operations no task is made or lost. */
module StealDomain {
  import opened RingProtocol
  import opened Worker
  import opened SchedulerCore

  ghost function Sum(parts: seq<multiset<Task>>): multiset<Task> {
    if parts == [] then multiset{} else Sum(parts[..|parts| - 1]) + parts[|parts| - 1]
  }

  lemma {:induction false} SumUpdate(parts: seq<multiset<Task>>, i: nat, part: multiset<Task>)
    requires i < |parts|
    ensures Sum(parts[i := part]) + parts[i] == Sum(parts) + part
  {
    var last := |parts| - 1;
    if i == last {
      assert parts[i := part][..last] == parts[..last];
    } else {
      SumUpdate(parts[..last], i, part);
      assert parts[i := part][..last] == parts[..last][i := part];
      forall t: Task ensures (Sum(parts[i := part]) + parts[i])[t] == (Sum(parts) + part)[t] {
        assert (Sum(parts[..last][i := part]) + parts[i])[t] == (Sum(parts[..last]) + part)[t];
      }
    }
  }

  lemma {:induction false} SumOfNothing(parts: seq<multiset<Task>>)
    requires forall i :: 0 <= i < |parts| ==> parts[i] == multiset{}
    ensures Sum(parts) == multiset{}
  {
    if parts != [] {
      SumOfNothing(parts[..|parts| - 1]);
    }
  }

  /** What two parts exchange does not show in the sum. */
  lemma SumExchange(parts: seq<multiset<Task>>, i: nat, a: multiset<Task>, j: nat, b: multiset<Task>)
    requires i < |parts| && j < |parts| && i != j && a + b == parts[i] + parts[j]
    ensures Sum(parts[i := a][j := b]) == Sum(parts)
  {
    SumUpdate(parts, i, a);
    SumUpdate(parts[i := a], j, b);
    forall t: Task ensures Sum(parts[i := a][j := b])[t] == Sum(parts)[t] {
      assert (Sum(parts[i := a]) + parts[i])[t] == (Sum(parts) + a)[t];
      assert (Sum(parts[i := a][j := b]) + parts[j])[t] == (Sum(parts[i := a]) + b)[t];
      assert (a + b)[t] == (parts[i] + parts[j])[t];
    }
  }

  ghost predicate Ledger(accepted: multiset<Task>, ran: multiset<Task>, parts: seq<multiset<Task>>) {
    accepted == ran + Sum(parts)
  }

  /** The ledger after worker `i` went from `parts[i]` to `now` while accepting and running tasks. */
  lemma LedgerStep(accepted: multiset<Task>, ran: multiset<Task>, parts: seq<multiset<Task>>,
                   i: nat, now: multiset<Task>, more: multiset<Task>, done: multiset<Task>)
    requires i < |parts| && Ledger(accepted, ran, parts) && parts[i] + more == now + done
    ensures Ledger(accepted + more, ran + done, parts[i := now])
  {
    SumUpdate(parts, i, now);
    forall t: Task ensures (accepted + more)[t] == (ran + done + Sum(parts[i := now]))[t] {
      assert (Sum(parts[i := now]) + parts[i])[t] == (Sum(parts) + now)[t];
      assert (parts[i] + more)[t] == (now + done)[t];
    }
  }

  lemma LedgerExchange(accepted: multiset<Task>, ran: multiset<Task>, parts: seq<multiset<Task>>,
                       i: nat, a: multiset<Task>, j: nat, b: multiset<Task>)
    requires i < |parts| && j < |parts| && i != j && a + b == parts[i] + parts[j] && Ledger(accepted, ran, parts)
    ensures Ledger(accepted, ran, parts[i := a][j := b])
  {
    SumExchange(parts, i, a, j, b);
  }

  lemma PassLedger(before: multiset<Task>, script: seq<Turn>, after: multiset<Task>, done: multiset<Task>, rest: seq<Turn>)
    requires Conserved(before, script, after, done, rest) && AllOffered(rest) <= AllOffered(script)
    ensures before + (AllOffered(script) - AllOffered(rest)) == after + done
  {
    hide AllOffered;
    forall t: Task ensures (before + (AllOffered(script) - AllOffered(rest)))[t] == (after + done)[t] {
      assert (before + AllOffered(script))[t] == (after + done + AllOffered(rest))[t];
    }
  }

  class StealDomain {
    const cores: seq<SchedulerCore>
    const workers: seq<WorkerState>
    ghost var accepted: multiset<Task>
    ghost var ran: multiset<Task>

    ghost predicate Wired()
      reads cores, workers
    {
      && |workers| == |cores|
      && (forall i :: 0 <= i < |workers| ==> cores[i].worker == workers[i] && cores[i].Valid() && workers[i].selfIndex == i)
      && (forall i, j :: 0 <= i < j < |workers| ==> workers[i] != workers[j])
    }

    ghost function Holdings(): seq<multiset<Task>>
      requires Wired()
      reads cores, workers
    {
      seq(|workers|, i requires 0 <= i < |workers| && Wired() reads cores, workers => workers[i].Held())
    }

    /** Accepted tasks are exactly those that ran and those that some worker holds. */
    ghost predicate Valid()
      reads this, cores, workers
    {
      Wired() && Ledger(accepted, ran, Holdings())
    }

    constructor (cores: seq<SchedulerCore>)
      requires forall i :: 0 <= i < |cores| ==>
        cores[i].Valid() && cores[i].worker.selfIndex == i && cores[i].worker.Held() == multiset{}
      ensures Valid() && accepted == multiset{} && this.cores == cores
    {
      this.cores := cores;
      workers := seq(|cores|, i requires 0 <= i < |cores| => cores[i].worker);
      accepted, ran := multiset{}, multiset{};
      new;
      hide Sum, WorkerState.Held, WorkerState.Valid;
      SumOfNothing(Holdings());
    }

    /** Worker `i` alone changed. */
    twostate lemma Alone(i: nat)
      requires old(Wired()) && i < |workers| && workers[i].Valid()
      requires forall c :: c in cores ==> unchanged(c)
      requires forall w :: w in workers && w != workers[i] ==> unchanged(w)
      ensures Wired() && Holdings() == old(Holdings())[i := workers[i].Held()]
    {
      hide WorkerState.Held, WorkerState.Valid;
      forall j | 0 <= j < |workers|
        ensures cores[j].Valid() && (j != i ==> workers[j].Held() == old(workers[j].Held()))
      {
        assert workers[j] in workers && cores[j] in cores;
        assert old(cores[j].Valid());
      }
    }

    /** A scheduling call on one of the schedulers. */
    method Offer(i: nat, call: Call)
      requires Valid() && i < |cores|
      modifies workers, this`accepted
      ensures Valid() && accepted == old(accepted) + Given(call.task)
    {
      hide Sum, Ledger, WorkerState.Held, WorkerState.Valid;
      cores[i].PerformOne(call, false);
      Alone(i);
      LedgerStep(accepted, ran, old(Holdings()), i, workers[i].Held(), Given(call.task), multiset{});
      assert ran + multiset{} == ran;
      accepted := accepted + Given(call.task);
    }

    /** A ready pass of scheduler `i`, with the tasks scheduled or injected while it runs. */
    method Pass(i: nat, script: seq<Turn>) returns (resumed: seq<Task>, rest: seq<Turn>)
      requires Valid() && i < |cores|
      modifies workers, this`accepted, this`ran
      ensures Valid() && ran == old(ran) + multiset(resumed)
      ensures accepted == old(accepted) + (AllOffered(script) - AllOffered(rest))
    {
      hide Sum, Ledger, WorkerState.Held, WorkerState.Valid, AllOffered;
      var summary;
      summary, resumed, rest := cores[i].RunReadyPass(script);
      Alone(i);
      ghost var more := AllOffered(script) - AllOffered(rest);
      RestOffersLess(rest, script);
      PassLedger(old(workers[i].Held()), script, workers[i].Held(), multiset(resumed), rest);
      LedgerStep(accepted, ran, old(Holdings()), i, workers[i].Held(), more, multiset(resumed));
      accepted, ran := accepted + more, ran + multiset(resumed);
    }

    /** Some other scheduler's oldest ring task may be resumed anywhere. */
    ghost predicate SomeoneYields(i: nat)
      requires Wired()
      reads cores, workers
    {
      exists j :: 0 <= j < |workers| && j != i && Yields(workers[j].Local())
    }

    lemma YieldsIffRich(i: nat)
      requires Wired() && i < |workers|
      ensures workers[i].Siblings(workers) && (SomeoneYields(i) <==> workers[i].Rich(workers) != {})
      ensures SomeoneYields(i) ==> |workers| > 1
    {
      hide Yields, WorkerState.Valid;
      assert forall j :: 0 <= j < |workers| ==> cores[j].Valid();
      if j :| 0 <= j < |workers| && j != i && Yields(workers[j].Local()) {
        assert j in workers[i].Rich(workers);
      }
      if j :| j in workers[i].Rich(workers) {
        assert j != i && Yields(workers[j].Local());
      }
    }

    /** Scheduler `i` steals exactly when it is idle and someone yields: the ledger does not move. */
    method Steal(i: nat, start: nat) returns (ok: bool)
      requires Valid() && i < |cores|
      modifies workers
      ensures Valid()
      ensures ok ==> workers[i].HasLocalWork()
      ensures ok <==>
        old(workers[i].stealingEnabled && !workers[i].HasLocalWork() && !workers[i].HasPendingInjected() && SomeoneYields(i))
    {
      hide Sum, Ledger, WorkerState.Held, WorkerState.Valid;
      YieldsIffRich(i);
      ghost var victim;
      ok, victim := workers[i].TrySteal(workers, start);
      if ok {
        ghost var j :| 0 <= j < |workers| && workers[j] == victim;
        LedgerExchange(accepted, ran, old(Holdings()), i, workers[i].Held(), j, workers[j].Held());
        assert Holdings() == old(Holdings())[i := workers[i].Held()][j := workers[j].Held()];
      } else {
        assert Holdings() == old(Holdings());
      }
    }
  }
}
