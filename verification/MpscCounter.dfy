/**
 The channel's size counter and element order at every atomic step: a producer adds to the counter
 before it enqueues, the consumer takes elements before it subtracts, and any number of producers
 run beside the one consumer.
 */
module MpscCounter {
  import opened MpscChannel

  /** A producer that has added its batch to the counter, and one whose batch the queue refused. */
  datatype Producer<+T> = Quiet | Adding(values: seq<T>) | Undoing(values: seq<T>)

  /** The consumer owes a subtraction for the elements it has taken; `Fetched` may still prefetch. */
  datatype Consumer = Ready | Fetched | Owing(n: nat)

  datatype State<T> = State(
    size: nat,
    queue: seq<T>,
    prefetch: seq<T>,
    producers: seq<Producer<T>>,
    consumer: Consumer,
    sent: seq<T>,
    received: seq<T>)

  datatype Step<+T> =
    | Add(id: nat, values: seq<T>)
    | Enqueue(id: nat)
    | Refuse(id: nat)
    | Undo(id: nat)
    | PopCached
    | Dequeue
    | Prefetch(count: nat)
    | DequeueBulk(count: nat)
    | Settle

  function Init<T>(producers: nat): State<T> {
    State(0, [], [], seq(producers, _ => Quiet), Ready, [], [])
  }

  function WithProducer<T>(s: State<T>, id: nat, p: Producer<T>): State<T>
    requires id < |s.producers|
  {
    s.(producers := s.producers[id := p])
  }

  /** One step; a step that its thread is not ready for changes nothing. */
  function Next<T>(s: State<T>, step: Step<T>): State<T> {
    match step
    case Add(id, values) =>
      if id < |s.producers| && s.producers[id].Quiet?
      then WithProducer(s, id, Adding(values)).(size := (s.size + |values|) % WORD) else s
    case Enqueue(id) =>
      if id < |s.producers| && s.producers[id].Adding? then
        WithProducer(s, id, Quiet).(queue := s.queue + s.producers[id].values, sent := s.sent + s.producers[id].values)
      else s
    case Refuse(id) =>
      if id < |s.producers| && s.producers[id].Adding? then WithProducer(s, id, Undoing(s.producers[id].values)) else s
    case Undo(id) =>
      if id < |s.producers| && s.producers[id].Undoing?
      then WithProducer(s, id, Quiet).(size := WrapSub(s.size, |s.producers[id].values|)) else s
    case PopCached =>
      if s.consumer.Ready? && s.prefetch != []
      then s.(prefetch := s.prefetch[1..], received := s.received + [s.prefetch[0]], consumer := Owing(1)) else s
    case Dequeue =>
      if s.consumer.Ready? && s.prefetch == [] && s.queue != []
      then s.(queue := s.queue[1..], received := s.received + [s.queue[0]], consumer := Fetched) else s
    case Prefetch(count) =>
      if s.consumer.Fetched? && count <= |s.queue|
      then s.(prefetch := s.queue[..count], queue := s.queue[count..], consumer := Owing(1)) else s
    case DequeueBulk(count) =>
      if s.consumer.Ready? && s.prefetch == [] && count <= |s.queue|
      then s.(queue := s.queue[count..], received := s.received + s.queue[..count], consumer := Owing(count)) else s
    case Settle =>
      if s.consumer.Owing? then s.(size := WrapSub(s.size, s.consumer.n), consumer := Ready) else s
  }

  function Run<T>(s: State<T>, steps: seq<Step<T>>): State<T> {
    if steps == [] then s else Next(Run(s, steps[..|steps| - 1]), steps[|steps| - 1])
  }

  // ---- what the counter counts -----------------------------------------------------------------

  function InHand<T>(p: Producer<T>): nat { if p.Quiet? then 0 else |p.values| }

  function Sending<T>(producers: seq<Producer<T>>): nat {
    if producers == [] then 0
    else Sending(producers[..|producers| - 1]) + InHand(producers[|producers| - 1])
  }

  function Owed(c: Consumer): nat {
    match c
    case Ready => 0
    case Fetched => 1
    case Owing(n) => n
  }

  /** Queued, cached and in-flight elements. */
  function Total<T>(s: State<T>): nat {
    |s.queue| + |s.prefetch| + Sending(s.producers) + Owed(s.consumer)
  }

  ghost predicate Consistent<T>(s: State<T>) {
    && s.size == Total(s) % WORD
    && s.sent == s.received + s.prefetch + s.queue
    && (s.consumer.Fetched? ==> s.prefetch == [])
  }

  lemma {:induction false} SendingUpdate<T>(producers: seq<Producer<T>>, id: nat, p: Producer<T>)
    requires id < |producers|
    ensures Sending(producers[id := p]) == Sending(producers) - InHand(producers[id]) + InHand(p)
  {
    var last := |producers| - 1;
    if id == last {
      assert producers[id := p][..last] == producers[..last];
    } else {
      SendingUpdate(producers[..last], id, p);
      assert producers[id := p][..last] == producers[..last][id := p];
    }
  }

  lemma {:induction false} QuietSendsNothing<T>(n: nat)
    ensures Sending(seq<Producer<T>>(n, _ => Quiet)) == 0
  {
    if n > 0 {
      QuietSendsNothing<T>(n - 1);
      assert seq<Producer<T>>(n, _ => Quiet)[..n - 1] == seq<Producer<T>>(n - 1, _ => Quiet);
    }
  }

  /** Every subtraction takes away at most what is counted, so the counter never passes zero. */
  lemma SubtractionsAreCovered<T>(s: State<T>, id: nat)
    ensures Owed(s.consumer) <= Total(s)
    ensures id < |s.producers| ==> InHand(s.producers[id]) <= Total(s)
  {
    if id < |s.producers| {
      SendingUpdate(s.producers, id, Quiet);
    }
  }

  lemma CounterKept<T>(s: State<T>, step: Step<T>)
    requires s.size == Total(s) % WORD && (s.consumer.Fetched? ==> s.prefetch == [])
    ensures Next(s, step).size == Total(Next(s, step)) % WORD
  {
    hide Sending, WrapSub;
    match step
    case Add(id, values) =>
      if id < |s.producers| { SendingUpdate(s.producers, id, Adding(values)); }
      WrapAdd(Total(s), |values|);
    case Enqueue(id) => if id < |s.producers| { SendingUpdate(s.producers, id, Quiet); }
    case Refuse(id) =>
      if id < |s.producers| && s.producers[id].Adding? {
        SendingUpdate(s.producers, id, Undoing(s.producers[id].values));
      }
    case Undo(id) =>
      SubtractionsAreCovered(s, id);
      if id < |s.producers| {
        SendingUpdate(s.producers, id, Quiet);
        WrapSubIs(Total(s), InHand(s.producers[id]));
      }
    case Settle => WrapSubIs(Total(s), Owed(s.consumer));
    case _ =>
  }

  /** The stream of elements, whichever part the front of it is moved to. */
  lemma FrontMoves<T>(received: seq<T>, front: seq<T>, back: seq<T>, n: nat)
    requires n <= |front|
    ensures received + front + back == received + front[..n] + (front[n..] + back)
  {
    assert front == front[..n] + front[n..];
  }

  lemma OrderKept<T>(s: State<T>, step: Step<T>)
    requires s.sent == s.received + s.prefetch + s.queue && (s.consumer.Fetched? ==> s.prefetch == [])
    ensures var s' := Next(s, step);
      s'.sent == s'.received + s'.prefetch + s'.queue && (s'.consumer.Fetched? ==> s'.prefetch == [])
  {
    match step
    case PopCached => if s.prefetch != [] { CachedKept(s); }
    case Dequeue => if s.queue != [] && s.prefetch == [] { TakenKept(s, 1); }
    case DequeueBulk(count) => if count <= |s.queue| && s.prefetch == [] { TakenKept(s, count); }
    case Prefetch(count) => if count <= |s.queue| && s.prefetch == [] { TakenKept(s, count); }
    case Enqueue(id) =>
      if id < |s.producers| && s.producers[id].Adding? { SentKept(s, s.producers[id].values); }
    case _ =>
  }

  lemma CachedKept<T>(s: State<T>)
    requires s.sent == s.received + s.prefetch + s.queue && s.prefetch != []
    ensures s.sent == s.received + [s.prefetch[0]] + s.prefetch[1..] + s.queue
  {
    FrontMoves(s.received, s.prefetch, s.queue, 1);
    assert s.prefetch[..1] == [s.prefetch[0]];
    Associates(s.received + [s.prefetch[0]], s.prefetch[1..], s.queue);
  }

  lemma TakenKept<T>(s: State<T>, n: nat)
    requires s.sent == s.received + s.prefetch + s.queue && s.prefetch == [] && n <= |s.queue|
    ensures s.sent == s.received + s.queue[..n] + s.queue[n..]
    ensures s.sent == s.received + s.queue[..n] + s.prefetch + s.queue[n..]
    ensures n == 1 ==> s.queue[..n] == [s.queue[0]]
  {
    FrontMoves(s.received, s.queue, [], n);
    assert s.received + s.prefetch == s.received;
    assert s.received + s.queue[..n] + s.prefetch == s.received + s.queue[..n];
    assert s.queue[n..] + [] == s.queue[n..];
    assert s.received + s.queue + [] == s.received + s.queue;
  }

  lemma SentKept<T>(s: State<T>, values: seq<T>)
    requires s.sent == s.received + s.prefetch + s.queue
    ensures s.sent + values == s.received + s.prefetch + (s.queue + values)
  {
    Associates(s.received + s.prefetch, s.queue, values);
  }

  lemma Associates<T>(a: seq<T>, b: seq<T>, c: seq<T>)
    ensures a + b + c == a + (b + c)
  {
  }

  /**
   In every interleaving the counter is the number of queued, cached and in-flight elements modulo
   2^32, and what was received, then cached, then queued is what was sent, in order.
   */
  lemma {:induction false} EveryRunIsConsistent<T>(producers: nat, steps: seq<Step<T>>)
    ensures Consistent(Run(Init(producers), steps))
  {
    hide Next;
    if steps == [] {
      QuietSendsNothing<T>(producers);
    } else {
      EveryRunIsConsistent(producers, steps[..|steps| - 1]);
      var s := Run(Init(producers), steps[..|steps| - 1]);
      CounterKept(s, steps[|steps| - 1]);
      OrderKept(s, steps[|steps| - 1]);
    }
  }

  /** A zero counter means that nothing is stored or in flight, exactly when the total is not a positive multiple of 2^32. */
  lemma ZeroMeansEmpty<T>(s: State<T>)
    requires Consistent(s)
    ensures s.size == 0 ==> (Total(s) < WORD <==> s.queue == [] && s.prefetch == [] && Owed(s.consumer) == 0 && Sending(s.producers) == 0)
    ensures Total(s) < WORD ==> s.size == Total(s)
  {
  }
}
