/**
 The multi-producer channel: the prefetch cache against a plain FIFO, with operations taken whole;
 and the 32-bit size counter step by step, for any number of producers beside the one consumer.
 The underlying queue is a linearizable FIFO that may refuse to grow.
 */
module MpscChannel {
  import opened Wrappers

  const WORD: nat := 0x1_0000_0000

  function Min(a: nat, b: nat): (m: nat)
    ensures m <= a && m <= b && (m == a || m == b)
  {
    if a < b then a else b
  }

  lemma WrapAdd(a: nat, b: nat)
    ensures (a % WORD + b % WORD) % WORD == (a + b) % WORD
    ensures (a % WORD + b) % WORD == (a + b) % WORD
  {
  }

  /** Subtracting modulo the word size what is really there. */
  function WrapSub(size: nat, n: nat): nat { (size + WORD - n % WORD) % WORD }

  lemma WrapSubIs(total: nat, n: nat)
    requires n <= total
    ensures WrapSub(total % WORD, n) == (total - n) % WORD
  {
  }

  // ---- whole operations ------------------------------------------------------------------------

  class Channel<T> {
    const prefetchLimit: nat
    var queue: seq<T>
    var prefetch: seq<T>
    var prefetchIndex: nat
    var prefetchCount: nat
    var size: nat

    ghost predicate Valid()
      reads this
    {
      && prefetchIndex <= prefetchCount <= |prefetch| <= prefetchLimit
      && (prefetchIndex == prefetchCount ==> prefetchIndex == 0)
      && size == |Contents()| % WORD
    }

    ghost function Cached(): seq<T>
      requires prefetchIndex <= prefetchCount <= |prefetch|
      reads this`prefetch, this`prefetchIndex, this`prefetchCount
    {
      prefetch[prefetchIndex..prefetchCount]
    }

    /** The plain queue the channel stands for. */
    ghost function Contents(): seq<T>
      requires prefetchIndex <= prefetchCount <= |prefetch|
      reads this`queue, this`prefetch, this`prefetchIndex, this`prefetchCount
    {
      Cached() + queue
    }

    constructor (prefetchLimit: nat)
      ensures Valid() && Contents() == [] && this.prefetchLimit == prefetchLimit
    {
      this.prefetchLimit := prefetchLimit;
      queue, prefetch, prefetchIndex, prefetchCount, size := [], [], 0, 0, 0;
    }

    /** `grows` is whether the underlying queue finds the memory for what is sent. */
    method Send(value: T, grows: bool) returns (ok: bool)
      requires Valid()
      modifies this`queue, this`size
      ensures Valid() && ok == grows
      ensures Contents() == old(Contents()) + (if ok then [value] else [])
    {
      ok := SendBatch([value], grows);
    }

    /** All of the batch behind what is there, or nothing. */
    method SendBatch(values: seq<T>, grows: bool) returns (ok: bool)
      requires Valid()
      modifies this`queue, this`size
      ensures Valid()
      ensures Contents() == old(Contents()) + (if ok then values else [])
      ensures ok <==> values == [] || grows
    {
      ok := values == [];
      if !ok {
        WrapAdd(|Contents()|, |values|);
        WrapSubIs(|Contents()| + |values|, |values|);
        size := (size + |values| % WORD) % WORD;
        if grows {
          queue := queue + values;
          assert Contents() == old(Contents()) + values;
        } else {
          size := WrapSub(size, |values|);
        }
        ok := grows;
      }
    }

    /** The moving variant counts the batch in 32 bits: it sends everything exactly when that is no loss. */
    method SendBatchMoved(values: seq<T>, grows: bool) returns (ok: bool)
      requires Valid()
      modifies this`queue, this`size
      ensures Valid()
      ensures Contents() == old(Contents()) + (if ok then values[..|values| % WORD] else [])
      ensures ok ==> (Contents() == old(Contents()) + values <==> |values| < WORD)
      ensures ok <==> values == [] || grows
    {
      var count := |values| % WORD;
      if values == [] {
        return true;
      }
      WrapAdd(|Contents()|, count);
      WrapSubIs(|Contents()| + count, count);
      size := (size + count) % WORD;
      ok := grows;
      if ok {
        queue := queue + values[..count];
        assert Contents() == old(Contents()) + values[..count];
        if |values| < WORD { assert values[..count] == values; }
      } else {
        size := WrapSub(size, count);
      }
    }

    method TryPopPrefetched() returns (out: Option<T>)
      requires Valid()
      modifies this`prefetchIndex, this`prefetchCount, this`size
      ensures Valid()
      ensures out.None? <==> old(Cached()) == []
      ensures out.None? ==> Contents() == old(Contents())
      ensures out.Some? ==> [out.value] + Cached() == old(Cached()) && [out.value] + Contents() == old(Contents())
    {
      if prefetchCount - prefetchIndex == 0 {
        return None;
      }
      WrapSubIs(|Contents()|, 1);
      out := Some(prefetch[prefetchIndex]);
      prefetchIndex := prefetchIndex + 1;
      if prefetchIndex == prefetchCount {
        prefetchIndex, prefetchCount := 0, 0;
      }
      assert [out.value] + Cached() == old(Cached());
      assert [out.value] + Contents() == old(Contents());
      size := WrapSub(size, 1);
    }

    /** Fills an empty cache from the queue; what the channel stands for does not change. */
    method TryPrefetch()
      requires prefetchIndex <= prefetchCount <= |prefetch| <= prefetchLimit
      requires prefetchIndex == prefetchCount ==> prefetchIndex == 0
      modifies this`queue, this`prefetch, this`prefetchIndex, this`prefetchCount
      ensures prefetchIndex <= prefetchCount <= |prefetch| <= prefetchLimit
      ensures prefetchIndex == prefetchCount ==> prefetchIndex == 0
      ensures Contents() == old(Contents())
      ensures |Cached()| == if old(Cached()) == [] then Min(prefetchLimit, |old(queue)|) else |old(Cached())|
    {
      if prefetchCount - prefetchIndex != 0 || prefetchLimit == 0 {
        return;
      }
      var count: nat := Min(prefetchLimit, |queue|);
      if count > 0 {
        prefetch, queue := queue[..count], queue[count..];
        prefetchIndex, prefetchCount := 0, count;
        assert Contents() == old(Contents());
      }
    }

    /**
     The oldest element.  None is right for a plain queue except when a multiple of 2^32 elements is
     stored and none is cached.
     */
    method TryRecv() returns (out: Option<T>)
      requires Valid()
      modifies this`queue, this`prefetch, this`prefetchIndex, this`prefetchCount, this`size
      ensures Valid()
      ensures out.None? <==> old(Cached()) == [] && |old(Contents())| % WORD == 0
      ensures out.None? ==> Contents() == old(Contents())
      ensures out.Some? ==> [out.value] + Contents() == old(Contents())
      ensures out.Some? && old(Cached()) == [] ==> |Cached()| == Min(prefetchLimit, |old(queue)| - 1)
    {
      out := TryPopPrefetched();
      if out.Some? || size == 0 {
        return;
      }
      WrapSubIs(|Contents()|, 1);
      out := Some(queue[0]);
      queue := queue[1..];
      assert [out.value] + Contents() == old(Contents());
      TryPrefetch();
      size := WrapSub(size, 1);
    }

    /** The oldest elements, as many as asked for or as there are; None for a request of nothing. */
    method TryRecvBatch(maxCount: nat) returns (out: Option<seq<T>>)
      requires Valid()
      modifies this`queue, this`prefetchIndex, this`prefetchCount, this`size
      ensures Valid()
      ensures out.None? <==> |old(Contents())| % WORD == 0 || maxCount == 0
      ensures out.None? ==> Contents() == old(Contents())
      ensures out.Some? ==> out.value + Contents() == old(Contents()) && |out.value| == Min(maxCount, |old(Contents())|)
    {
      if size == 0 {
        return None;
      }
      var values := TakeCached(maxCount);
      if |values| < maxCount {
        ghost var before := Contents();
        var more := TakeQueued(maxCount - |values|);
        assert values + more + Contents() == values + before;
        values := values + more;
      }
      out := if values == [] then None else Some(values);
    }

    /** Pops cached elements; fewer than asked for means that the cache is empty. */
    method TakeCached(maxCount: nat) returns (values: seq<T>)
      requires Valid()
      modifies this`prefetchIndex, this`prefetchCount, this`size
      ensures Valid() && |values| <= maxCount && values + Contents() == old(Contents())
      ensures |values| < maxCount ==> Cached() == []
    {
      values := [];
      var more := true;
      while |values| < maxCount && more
        invariant Valid() && |values| <= maxCount
        invariant values + Contents() == old(Contents())
        invariant !more ==> Cached() == []
        decreases maxCount - |values|, more
      {
        ghost var before := Contents();
        var cached := TryPopPrefetched();
        more := cached.Some?;
        if more {
          assert values + [cached.value] + Contents() == values + before;
          values := values + [cached.value];
        }
      }
    }

    /** Takes from the queue behind an empty cache. */
    method TakeQueued(maxCount: nat) returns (values: seq<T>)
      requires Valid() && Cached() == []
      modifies this`queue, this`size
      ensures Valid() && values + Contents() == old(Contents()) && |values| == Min(maxCount, |old(Contents())|)
    {
      assert Contents() == queue;
      var count := Min(maxCount, |queue|);
      WrapSubIs(|queue|, count);
      values, queue := queue[..count], queue[count..];
      assert Contents() == queue;
      size := WrapSub(size, count);
    }
  }
}
